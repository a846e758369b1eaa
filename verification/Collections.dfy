/** Facts about finite maps, sets and sequences that several modelled components share:
    sums over a map of weights, and the cardinality facts behind counting arguments. */
module Collections {

  datatype Option<+T> = None | Some(value: T)

  function Look<K, V>(m: map<K, V>, k: K): (r: Option<V>)
    ensures r.Some? <==> k in m
    ensures r.Some? ==> r.value == m[k]
  {
    if k in m then Some(m[k]) else None
  }

  /** Maps are the same when all look-ups are. */
  lemma SameMaps<K(!new), V>(a: map<K, V>, b: map<K, V>)
    requires forall k :: Look(a, k) == Look(b, k)
    ensures a == b
  {
    forall k
      ensures k in a <==> k in b
      ensures k in a ==> a[k] == b[k]
    {
      assert Look(a, k) == Look(b, k);
    }
  }

  /** The weight of a key, zero when the key is absent (what indexing a Go map of numbers yields). */
  function WeightAt<K>(w: map<K, int>, k: K): int {
    if k in w then w[k] else 0
  }

  /** The sum of all weights of a map. */
  ghost function Sum<K(!new)>(w: map<K, int>): int
    decreases |w|
  {
    if w == map[] then 0
    else
      var k :| k in w;
      w[k] + Sum(w - {k})
  }

  lemma {:induction false} SumRemove<K(!new)>(w: map<K, int>, k: K)
    ensures Sum(w) == WeightAt(w, k) + Sum(w - {k})
    decreases |w|
  {
    if k !in w {
      assert w - {k} == w;
    } else {
      var j :| j in w && Sum(w) == w[j] + Sum(w - {j});
      if j != k {
        SumRemove(w - {j}, k);
        SumRemove(w - {k}, j);
        assert w - {j} - {k} == w - {k} - {j};
      }
    }
  }

  lemma SumPut<K(!new)>(w: map<K, int>, k: K, v: int)
    ensures Sum(w[k := v]) == Sum(w) - WeightAt(w, k) + v
  {
    SumRemove(w, k);
    SumRemove(w[k := v], k);
    assert w[k := v] - {k} == w - {k};
  }

  /** Two weight maps that agree everywhere except at one key. */
  lemma SumDiffer<K(!new)>(w: map<K, int>, w': map<K, int>, k: K)
    requires w - {k} == w' - {k}
    ensures Sum(w') == Sum(w) - WeightAt(w, k) + WeightAt(w', k)
  {
    SumRemove(w, k);
    SumRemove(w', k);
  }

  lemma {:induction false} SumNonNegative<K(!new)>(w: map<K, int>)
    requires forall k :: k in w ==> w[k] >= 0
    ensures Sum(w) >= 0
    ensures forall k :: k in w ==> w[k] <= Sum(w)
    decreases |w|
  {
    forall k | k in w
      ensures Sum(w) >= w[k]
    {
      SumRemove(w, k);
      SumNonNegative(w - {k});
    }
    if w != map[] {
      var k :| k in w;
      assert w[k] >= 0;
    }
  }

  lemma {:induction false} SumPositive<K(!new)>(w: map<K, int>)
    requires forall k :: k in w ==> w[k] >= 0
    ensures Sum(w) > 0 <==> exists k :: k in w && w[k] > 0
    decreases |w|
  {
    SumNonNegative(w);
    if w != map[] {
      var k :| k in w;
      SumRemove(w, k);
      SumPositive(w - {k});
      if Sum(w) > 0 && w[k] == 0 {
        var j :| j in w - {k} && (w - {k})[j] > 0;
        assert j in w && w[j] > 0;
      }
    }
  }

  lemma {:induction false} SumAdd<K(!new)>(a: map<K, int>, b: map<K, int>, c: map<K, int>)
    requires a.Keys == b.Keys == c.Keys
    requires forall k :: k in a ==> c[k] == a[k] + b[k]
    ensures Sum(c) == Sum(a) + Sum(b)
    decreases |a|
  {
    if a == map[] {
      assert b == map[] && c == map[];
    } else {
      var k :| k in a;
      SumRemove(a, k);
      SumRemove(b, k);
      SumRemove(c, k);
      SumAdd(a - {k}, b - {k}, c - {k});
    }
  }

  /** The sum of unit weights counts the keys of weight one. */
  lemma {:induction false} SumCounts<K(!new)>(w: map<K, int>, ones: set<K>)
    requires forall k :: k in w ==> w[k] == if k in ones then 1 else 0
    requires ones <= w.Keys
    ensures Sum(w) == |ones|
    decreases |w|
  {
    if w == map[] {
      assert ones == {};
    } else {
      var k :| k in w;
      SumRemove(w, k);
      SumCounts(w - {k}, ones - {k});
    }
  }

  lemma {:induction false} SubsetSize<T>(a: set<T>, b: set<T>)
    requires a <= b
    ensures |a| <= |b|
    ensures |a| == |b| ==> a == b
    decreases a
  {
    if a != {} {
      var x :| x in a;
      SubsetSize(a - {x}, b - {x});
    }
  }

  lemma UnionSize<T>(a: set<T>, b: set<T>)
    ensures |a + b| + |a * b| == |a| + |b|
  {
  }

  lemma NoneNewIff<T>(a: set<T>, b: set<T>)
    ensures |b - a| == 0 <==> b <= a
  {
    if b <= a {
      assert b - a == {};
    } else {
      var x :| x in b && x !in a;
      assert x in b - a;
    }
  }

  lemma OneMoreSize<T>(a: set<T>, x: T)
    requires x !in a
    ensures |a + {x}| == |a| + 1
  {
  }

  lemma NewMembers<T>(a: set<T>, b: set<T>)
    ensures |a + b| == |a| + |b - a|
  {
    assert a + b == a + (b - a);
  }

  /** One more member of a union counts once, and not at all when it is there already. */
  lemma UnionOneMore<T>(a: set<T>, b: set<T>, x: T)
    ensures x in a + b ==> a + (b + {x}) == a + b
    ensures x !in a + b ==> a + (b + {x}) == a + b + {x} && |a + b + {x}| == |a + b| + 1
  {
  }

  /** The numbers of a set in increasing order. */
  ghost predicate Enumerates(ps: seq<nat>, chosen: set<nat>) {
    && (forall i, j :: 0 <= i < j < |ps| ==> ps[i] < ps[j])
    && (forall n: nat :: n in ps <==> n in chosen)
  }

  lemma EnumeratesMore(ps: seq<nat>, chosen: set<nat>, n: nat)
    requires Enumerates(ps, chosen) && forall k :: k in chosen ==> k < n
    ensures Enumerates(ps + [n], chosen + {n})
  {
    forall i | 0 <= i < |ps|
      ensures ps[i] < n
    {
      assert ps[i] in ps;
    }
  }

  lemma NothingEnumerated(ps: seq<nat>, chosen: set<nat>)
    requires Enumerates(ps, chosen)
    ensures ps == [] <==> chosen == {}
  {
    assert ps != [] ==> ps[0] in ps;
  }

  function ElementSet<T>(s: seq<T>): set<T> {
    set x | x in s
  }
}
