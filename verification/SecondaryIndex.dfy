/**
 A column family that repeats, under other keys, what a table of records
 implies: adjacency and label indexes are all of this kind.
 */
module SecondaryIndex {
  import opened Bytes
  import opened GraphKeys

  /** The index holds exactly the keys its table's records derive, each with its record's value. */
  ghost predicate IndexInv<R(!new), V(!new)>(table: map<Bytes, R>, index: map<Bytes, V>, derive: R -> set<Bytes>,
                                             value: R -> V)
  {
    && (forall k, q :: k in table && q in derive(table[k]) ==>
          |q| >= 32 && Owner(q) == k && q in index && index[q] == value(table[k]))
    && (forall q :: q in index ==> |q| >= 32 && Owner(q) in table && q in derive(table[Owner(q)]))
  }

  /** The table determines the index. */
  lemma IndexDetermined<R(!new), V(!new)>(table: map<Bytes, R>, a: map<Bytes, V>, b: map<Bytes, V>,
                                          derive: R -> set<Bytes>, value: R -> V)
    requires IndexInv(table, a, derive, value) && IndexInv(table, b, derive, value)
    ensures a == b
  {
    forall q | q in a ensures q in b && a[q] == b[q] {
      assert q in derive(table[Owner(q)]);
    }
    forall q | q in b ensures q in a {
      assert q in derive(table[Owner(q)]);
    }
  }

  /** Replacing one record: its old keys go, its new ones come, no other entry is touched. */
  lemma IndexPut<R(!new), V(!new)>(table: map<Bytes, R>, index: map<Bytes, V>, derive: R -> set<Bytes>, value: R -> V,
                                   k: Bytes, r: R, index': map<Bytes, V>)
    requires IndexInv(table, index, derive, value)
    requires forall q :: q in derive(r) ==> |q| >= 32 && Owner(q) == k && q in index' && index'[q] == value(r)
    requires forall q :: q in index' && q !in derive(r) ==> q in index && Owner(q) != k && index'[q] == index[q]
    requires forall q :: q in index && Owner(q) != k ==> q in index'
    ensures IndexInv(table[k := r], index', derive, value)
  {
    var table' := table[k := r];
    forall k', q | k' in table' && q in derive(table'[k'])
      ensures |q| >= 32 && Owner(q) == k' && q in index' && index'[q] == value(table'[k'])
    {
      if k' != k {
        assert q in derive(table[k']);
      }
    }
  }

  lemma IndexRemove<R(!new), V(!new)>(table: map<Bytes, R>, index: map<Bytes, V>, derive: R -> set<Bytes>,
                                      value: R -> V, k: Bytes, index': map<Bytes, V>)
    requires IndexInv(table, index, derive, value)
    requires forall q :: q in index' ==> q in index && Owner(q) != k && index'[q] == index[q]
    requires forall q :: q in index && Owner(q) != k ==> q in index'
    ensures IndexInv(table - {k}, index', derive, value)
  {
    var table' := table - {k};
    forall k', q | k' in table' && q in derive(table'[k'])
      ensures |q| >= 32 && Owner(q) == k' && q in index' && index'[q] == value(table'[k'])
    {
      assert q in derive(table[k']);
    }
  }

  /** A table or index without the keys of one graph. */
  ghost function WithoutGraph<V>(m: map<Bytes, V>, graphId: Bytes): map<Bytes, V> {
    map k | k in m && !(graphId <= k) :: m[k]
  }

  lemma OwnerInGraph(q: Bytes, graphId: Bytes)
    requires |q| >= 32 && |graphId| == 16
    ensures graphId <= q <==> graphId <= Owner(q)
  {
    assert Owner(q)[..16] == q[..16];
  }

  lemma IndexDropGraph<R(!new), V(!new)>(table: map<Bytes, R>, index: map<Bytes, V>, derive: R -> set<Bytes>,
                                         value: R -> V, graphId: Bytes)
    requires IndexInv(table, index, derive, value) && |graphId| == 16
    ensures IndexInv(WithoutGraph(table, graphId), WithoutGraph(index, graphId), derive, value)
  {
    var table', index' := WithoutGraph(table, graphId), WithoutGraph(index, graphId);
    forall q | q in index ensures graphId <= q <==> graphId <= Owner(q) {
      OwnerInGraph(q, graphId);
    }
    hide Owner;
    forall k, q | k in table' && q in derive(table'[k])
      ensures |q| >= 32 && Owner(q) == k && q in index' && index'[q] == value(table'[k])
    {
      assert q in derive(table[k]);
    }
    forall q | q in index' ensures |q| >= 32 && Owner(q) in table' && q in derive(table'[Owner(q)]) {
      assert q in derive(table[Owner(q)]);
    }
  }
}
