/**
 What a coherent index answers: a lookup finds exactly the nodes with the given
 values, and a range scan exactly those whose value lies in the range, in order.
 */
module IndexScans {
  import opened Bytes
  import opened OrderedStore
  import opened Wrappers
  import opened Values
  import opened ValueCodec
  import opened GraphKeys
  import opened GraphStore
  import opened PropertyIndex
  import opened StorageEngines

  /** The nodes that index keys belong to. */
  ghost predicate Owned(nodes: NodeTable, ks: seq<Bytes>) {
    forall i :: 0 <= i < |ks| ==> |ks[i]| >= 41 && EntryOwner(ks[i]) in nodes
  }

  ghost function Owners(nodes: NodeTable, ks: seq<Bytes>): (r: seq<Node>)
    requires Owned(nodes, ks)
    ensures |r| == |ks| && forall i :: 0 <= i < |ks| ==> r[i] == nodes[EntryOwner(ks[i])]
  {
    seq(|ks|, i requires 0 <= i < |ks| => nodes[EntryOwner(ks[i])])
  }

  /** The node belongs in the index. */
  ghost predicate Covered(def: IndexDefinition, nodes: NodeTable, n: Node) {
    NodeOf(n) in nodes && nodes[NodeOf(n)] == n && n.graphId == def.graphId && HasIndexed(def, n)
  }

  /** An entry of a coherent index is its owner's entry, and its last bytes are the owner's id. */
  lemma EntryOf(family: IndexFamily, def: IndexDefinition, nodes: NodeTable, env: Env, q: Bytes)
    requires EnvOk(env) && NodesKeyed(nodes) && Coherent(family, def, nodes, env)
    requires q in family && EntryPrefix(def.graphId, def.name, env) <= q
    ensures |q| >= 41 && EntryOwner(q) in nodes
    ensures var n := nodes[EntryOwner(q)];
            Covered(def, nodes, n) && q == NodeEntry(def, n, env) && EntityId(q) == n.id
  {
    var n := nodes[EntryOwner(q)];
    EntryShape(def, EncodeProperties(def, n, env), n.id, env);
    hide EnvOk, EncodeProperties, EntryKey, HasIndexed;
  }

  lemma EntryIn(family: IndexFamily, def: IndexDefinition, nodes: NodeTable, env: Env, n: Node)
    requires EnvOk(env) && Coherent(family, def, nodes, env) && Covered(def, nodes, n)
    ensures NodeEntry(def, n, env) in family
    ensures EntryPrefix(def.graphId, def.name, env) <= NodeEntry(def, n, env)
    ensures |NodeEntry(def, n, env)| >= 41 && EntryOwner(NodeEntry(def, n, env)) == NodeOf(n)
  {
    EntryShape(def, EncodeProperties(def, n, env), n.id, env);
    hide EnvOk, EncodeProperties, EntryKey, HasIndexed, EntryPrefix;
  }

  // ----- exact lookup -----

  /** An entry extends the encoded values if and only if its node has exactly those. */
  lemma EntryMatches(def: IndexDefinition, n: Node, values: seq<Value>, env: Env)
    requires EnvOk(env) && |values| == |def.propertyNames|
    ensures EntryValuePrefix(def, EncodeValues(values, env.codec), env) <= NodeEntry(def, n, env) <==>
              EncodeProperties(def, n, env) == EncodeValues(values, env.codec)
  {
    hide EncodeValues, Fits;
    var p, e, v := EntryPrefix(def.graphId, def.name, env), EncodeProperties(def, n, env), EncodeValues(values, env.codec);
    assert NodeEntry(def, n, env) == p + (e + n.id);
    PrefixCancels(p, v, e + n.id);
    if v <= e + n.id {
      var y := (e + n.id)[|v|..];
      assert v + y == e + n.id;
      TupleDelimits(values, y, IndexedValues(def, n), n.id, env.codec);
    }
  }

  predicate Matches(def: IndexDefinition, encoded: Bytes, env: Env, n: Node) {
    HasIndexed(def, n) && EncodeProperties(def, n, env) == encoded
  }

  /** The nodes of the graph that have an indexed property and encode to the given values, in key order. */
  function MatchingNodes(nodes: NodeTable, def: IndexDefinition, encoded: Bytes, env: Env): seq<Node> {
    Select(NodesOf(nodes, def.graphId), (n: Node) => Matches(def, encoded, env, n))
  }

  ghost function LookupKeys(family: IndexFamily, def: IndexDefinition, values: seq<Value>, env: Env): seq<Bytes> {
    KeysWithPrefix(family.Keys, EntryValuePrefix(def, EncodeValues(values, env.codec), env))
  }

  lemma LookupHit(family: IndexFamily, def: IndexDefinition, nodes: NodeTable, env: Env, values: seq<Value>, q: Bytes)
    requires EnvOk(env) && NodesKeyed(nodes) && Coherent(family, def, nodes, env) && |values| == |def.propertyNames|
    requires q in LookupKeys(family, def, values, env)
    ensures |q| >= 41 && EntryOwner(q) in nodes
    ensures var n := nodes[EntryOwner(q)];
            && Covered(def, nodes, n) && Matches(def, EncodeValues(values, env.codec), env, n) && EntityId(q) == n.id
            && q == EntryValuePrefix(def, EncodeValues(values, env.codec), env) + n.id
  {
    var vp := EntryValuePrefix(def, EncodeValues(values, env.codec), env);
    assert EntryPrefix(def.graphId, def.name, env) <= vp <= q;
    hide EncodeValues, SortedKeys, Coherent, EnvOk, EntryPrefix, NodesKeyed, IndexedValues;
    EntryOf(family, def, nodes, env, q);
    EntryMatches(def, nodes[EntryOwner(q)], values, env);
  }

  lemma LookupComplete(family: IndexFamily, def: IndexDefinition, nodes: NodeTable, env: Env, values: seq<Value>, n: Node)
    requires EnvOk(env) && NodesKeyed(nodes) && Coherent(family, def, nodes, env) && |values| == |def.propertyNames|
    requires Covered(def, nodes, n) && Matches(def, EncodeValues(values, env.codec), env, n)
    ensures NodeEntry(def, n, env) in LookupKeys(family, def, values, env)
  {
    EntryIn(family, def, nodes, env, n);
    EntryMatches(def, n, values, env);
    hide EncodeValues, SortedKeys, Coherent, EnvOk, EntryPrefix, NodesKeyed, HasIndexed, NodeEntry, EntryValuePrefix;
  }

  lemma LookupOwned(family: IndexFamily, def: IndexDefinition, nodes: NodeTable, env: Env, values: seq<Value>)
    requires EnvOk(env) && NodesKeyed(nodes) && Coherent(family, def, nodes, env) && |values| == |def.propertyNames|
    ensures Owned(nodes, LookupKeys(family, def, values, env))
  {
    var ks := LookupKeys(family, def, values, env);
    hide *;
    forall i | 0 <= i < |ks| ensures |ks[i]| >= 41 && EntryOwner(ks[i]) in nodes {
      assert ks[i] in ks;
      LookupHit(family, def, nodes, env, values, ks[i]);
    }
    IsOwned(nodes, ks);
  }

  lemma IsOwned(nodes: NodeTable, ks: seq<Bytes>)
    requires forall i :: 0 <= i < |ks| ==> |ks[i]| >= 41 && EntryOwner(ks[i]) in nodes
    ensures Owned(nodes, ks)
  {
  }

  lemma LookupSorted(family: IndexFamily, def: IndexDefinition, nodes: NodeTable, env: Env, values: seq<Value>)
    requires EnvOk(env) && NodesKeyed(nodes) && Coherent(family, def, nodes, env) && |values| == |def.propertyNames|
    requires Owned(nodes, LookupKeys(family, def, values, env))
    ensures StrictlySorted(NodeKeysOf(Owners(nodes, LookupKeys(family, def, values, env))))
  {
    var vp := EntryValuePrefix(def, EncodeValues(values, env.codec), env);
    var ks := LookupKeys(family, def, values, env);
    var list := Owners(nodes, ks);
    SortedKeysSorted((set k | k in family.Keys && vp <= k));
    hide SortedKeys, Less, EnvOk, NodesKeyed, Coherent, EntryValuePrefix, Matches, LookupKeys;
    forall i, j | 0 <= i < j < |ks| ensures Less(NodeOf(list[i]), NodeOf(list[j])) {
      assert ks[i] in ks && ks[j] in ks;
      LookupHit(family, def, nodes, env, values, ks[i]);
      LookupHit(family, def, nodes, env, values, ks[j]);
      LessCommonHead(vp, list[i].id, list[j].id);
      LessCommonHead(def.graphId, list[i].id, list[j].id);
    }
  }

  lemma LookupMembers(family: IndexFamily, def: IndexDefinition, nodes: NodeTable, env: Env, values: seq<Value>, n: Node)
    requires EnvOk(env) && NodesKeyed(nodes) && Coherent(family, def, nodes, env) && |values| == |def.propertyNames|
    requires Owned(nodes, LookupKeys(family, def, values, env))
    ensures n in Owners(nodes, LookupKeys(family, def, values, env)) <==>
              Covered(def, nodes, n) && Matches(def, EncodeValues(values, env.codec), env, n)
  {
    hide *;
    var ks := LookupKeys(family, def, values, env);
    var list := Owners(nodes, ks);
    if n in list {
      var i :| 0 <= i < |ks| && list[i] == n;
      assert ks[i] in ks;
      LookupHit(family, def, nodes, env, values, ks[i]);
    }
    if Covered(def, nodes, n) && Matches(def, EncodeValues(values, env.codec), env, n) {
      LookupComplete(family, def, nodes, env, values, n);
      EntryIn(family, def, nodes, env, n);
      var i :| 0 <= i < |ks| && ks[i] == NodeEntry(def, n, env);
      CoveredStored(def, nodes, n);
      assert list[i] == n;
    }
  }

  lemma CoveredStored(def: IndexDefinition, nodes: NodeTable, n: Node)
    requires Covered(def, nodes, n)
    ensures NodeOf(n) in nodes && nodes[NodeOf(n)] == n && n.graphId == def.graphId && HasIndexed(def, n)
  {
  }

  /** The ids a lookup returns are those of exactly the matching nodes, in the order of the node table. */
  lemma LookupExact(family: IndexFamily, def: IndexDefinition, nodes: NodeTable, env: Env, values: seq<Value>)
    requires EnvOk(env) && NodesKeyed(nodes) && Coherent(family, def, nodes, env) && |values| == |def.propertyNames|
    ensures var ks := LookupKeys(family, def, values, env);
            var list := MatchingNodes(nodes, def, EncodeValues(values, env.codec), env);
            && (forall k :: k in ks ==> |k| >= 16)
            && |IdsAt(ks)| == |list| && forall i :: 0 <= i < |list| ==> IdsAt(ks)[i] == list[i].id
  {
    LookupOwned(family, def, nodes, env, values);
    LookupNodes(family, def, nodes, env, values);
    var ks := LookupKeys(family, def, values, env);
    hide Coherent, EnvOk, NodesKeyed, LookupKeys, EntryOwner, EntityId, NodeOf, HasIndexed, MatchingNodes, EntryValuePrefix,
      EncodeValues, Matches;
    forall i | 0 <= i < |ks| ensures |ks[i]| >= 41 && EntityId(ks[i]) == Owners(nodes, ks)[i].id {
      assert ks[i] in ks;
      LookupHit(family, def, nodes, env, values, ks[i]);
    }
  }

  lemma LookupNodes(family: IndexFamily, def: IndexDefinition, nodes: NodeTable, env: Env, values: seq<Value>)
    requires EnvOk(env) && NodesKeyed(nodes) && Coherent(family, def, nodes, env) && |values| == |def.propertyNames|
    requires Owned(nodes, LookupKeys(family, def, values, env))
    ensures Owners(nodes, LookupKeys(family, def, values, env)) ==
              MatchingNodes(nodes, def, EncodeValues(values, env.codec), env)
  {
    var encoded := EncodeValues(values, env.codec);
    var a, b := Owners(nodes, LookupKeys(family, def, values, env)), MatchingNodes(nodes, def, encoded, env);
    LookupSorted(family, def, nodes, env, values);
    MatchingSorted(nodes, def, encoded, env);
    hide *;
    forall n ensures n in a <==> n in b {
      LookupMembers(family, def, nodes, env, values, n);
      MatchingMembers(nodes, def, encoded, env, n);
    }
    forall n | n in b ensures NodeOf(n) in nodes && nodes[NodeOf(n)] == n {
      MatchingMembers(nodes, def, encoded, env, n);
      CoveredStored(def, nodes, n);
    }
    SameNodesSameOrder(a, b, nodes);
  }

  lemma MatchingSorted(nodes: NodeTable, def: IndexDefinition, encoded: Bytes, env: Env)
    requires NodesKeyed(nodes)
    ensures StrictlySorted(NodeKeysOf(MatchingNodes(nodes, def, encoded, env)))
  {
    hide NodesOf, Select, StrictlySorted, NodeKeysOf, Matches;
    NodesOfExactly(nodes, def.graphId);
    SelectExactly(NodesOf(nodes, def.graphId), (n: Node) => Matches(def, encoded, env, n));
  }

  lemma MatchingMembers(nodes: NodeTable, def: IndexDefinition, encoded: Bytes, env: Env, n: Node)
    requires NodesKeyed(nodes)
    ensures n in MatchingNodes(nodes, def, encoded, env) <==> Covered(def, nodes, n) && Matches(def, encoded, env, n)
  {
    hide NodesOf, Select, StrictlySorted, NodeKeysOf, NodeOf, HasIndexed, EncodeProperties;
    NodesOfExactly(nodes, def.graphId);
    SelectExactly(NodesOf(nodes, def.graphId), (n: Node) => Matches(def, encoded, env, n));
  }

  // ----- range scan -----

  /** What a single-property index keeps of a node. */
  function Indexed(def: IndexDefinition, n: Node): Value
    requires |def.propertyNames| == 1
  {
    IndexedValues(def, n)[0]
  }

  /** The value's place in the byte order is its place in the order of values. */
  predicate Placed(v: Value) {
    Ordinary(v) || Tag(v) == 0xFF
  }

  lemma SingleEntry(def: IndexDefinition, n: Node, env: Env)
    requires |def.propertyNames| == 1
    ensures NodeEntry(def, n, env) ==
              EntryPrefix(def.graphId, def.name, env) + (EncodeValue(Indexed(def, n), env.codec) + n.id)
  {
    var v := EncodeValue(Indexed(def, n), env.codec);
    hide EncodeValue, EntryPrefix;
    var vs := IndexedValues(def, n);
    assert vs[1..] == [] && EncodeValues(vs[1..], env.codec) == [];
    assert EncodeValues(vs, env.codec) == v;
  }

  lemma RangeBound(def: IndexDefinition, v: Value, env: Env)
    ensures RangeStart(def, v, env) == EntryPrefix(def.graphId, def.name, env) + (EncodeValue(v, env.codec) + [])
  {
    assert EncodeValues([v], env.codec) == EncodeValue(v, env.codec) + [];
  }

  /** An entry stands below the encoding of a bound if and only if its value is below the bound. */
  lemma EntryBelow(def: IndexDefinition, n: Node, bound: Value, env: Env)
    requires EnvOk(env) && |def.propertyNames| == 1 && Ordinary(bound) && Placed(Indexed(def, n))
    ensures Less(NodeEntry(def, n, env), RangeStart(def, bound, env)) <==> ValueLess(Indexed(def, n), bound)
    ensures AtMost(RangeStart(def, bound, env), NodeEntry(def, n, env)) <==> !ValueLess(Indexed(def, n), bound)
  {
    var v, c := Indexed(def, n), env.codec;
    var p := EntryPrefix(def.graphId, def.name, env);
    SingleEntry(def, n, env);
    RangeBound(def, bound, env);
    LessCommonHead(p, EncodeValue(v, c) + n.id, EncodeValue(bound, c) + []);
    var below := ValueLess(v, bound);
    if v == bound {
      ValueLessIrreflexive(v);
      PrefixAtMost(EncodeValue(v, c) + [], EncodeValue(v, c) + n.id);
      hide EncodeValue, Less, Ordinary, ValueLess, NodeEntry, RangeStart, Fits, EntryPrefix, Indexed;
      NotBoth(EncodeValue(v, c) + [], EncodeValue(v, c) + n.id);
      OneWay(NodeEntry(def, n, env), RangeStart(def, bound, env));
    } else {
      ValueOrder(v, n.id, bound, [], c);
      hide EncodeValue, Less, Ordinary, ValueLess, NodeEntry, RangeStart, Fits, EntryPrefix, Indexed;
      OneWay(NodeEntry(def, n, env), RangeStart(def, bound, env));
    }
  }

  lemma NotBoth(a: Bytes, b: Bytes)
    requires AtMost(a, b)
    ensures !Less(b, a)
  {
    if Less(b, a) {
      LessAsymmetric(b, a);
    }
  }

  lemma OneWay(a: Bytes, b: Bytes)
    ensures Less(a, b) <==> !AtMost(b, a)
  {
    LessTotal(a, b);
    if Less(a, b) {
      LessAsymmetric(a, b);
    }
  }

  /** By value; nodes with the same value by id. */
  predicate InValueOrder(def: IndexDefinition, a: Node, b: Node)
    requires |def.propertyNames| == 1
  {
    ValueLess(Indexed(def, a), Indexed(def, b)) || (Indexed(def, a) == Indexed(def, b) && Less(a.id, b.id))
  }

  lemma EntryOrder(def: IndexDefinition, a: Node, b: Node, env: Env)
    requires EnvOk(env) && |def.propertyNames| == 1 && Ordinary(Indexed(def, a)) && Ordinary(Indexed(def, b))
    requires Less(NodeEntry(def, a, env), NodeEntry(def, b, env))
    ensures InValueOrder(def, a, b)
  {
    var v, w, c := Indexed(def, a), Indexed(def, b), env.codec;
    SingleEntry(def, a, env);
    SingleEntry(def, b, env);
    LessCommonHead(EntryPrefix(def.graphId, def.name, env), EncodeValue(v, c) + a.id, EncodeValue(w, c) + b.id);
    if v == w {
      LessCommonHead(EncodeValue(v, c), a.id, b.id);
    } else {
      ValueOrder(v, a.id, w, b.id, c);
    }
  }

  /** All values of the indexed property in the graph have a place in the order. */
  ghost predicate AllPlaced(def: IndexDefinition, nodes: NodeTable)
    requires |def.propertyNames| == 1
  {
    forall n :: Covered(def, nodes, n) ==> Placed(Indexed(def, n))
  }

  predicate Between(def: IndexDefinition, n: Node, start: Value, end: Value)
    requires |def.propertyNames| == 1
  {
    !ValueLess(Indexed(def, n), start) && ValueLess(Indexed(def, n), end)
  }

  lemma RangeHit(family: IndexFamily, def: IndexDefinition, nodes: NodeTable, env: Env, start: Value, end: Value, q: Bytes)
    requires EnvOk(env) && NodesKeyed(nodes) && Coherent(family, def, nodes, env) && |def.propertyNames| == 1
    requires Ordinary(start) && Ordinary(end) && AllPlaced(def, nodes)
    requires q in RangeKeys(family, def, start, end, env)
    ensures |q| >= 41 && EntryOwner(q) in nodes
    ensures var n := nodes[EntryOwner(q)];
            && Covered(def, nodes, n) && Between(def, n, start, end) && Ordinary(Indexed(def, n))
            && q == NodeEntry(def, n, env) && EntityId(q) == n.id
  {
    hide EncodeValues, SortedKeys, Coherent, EnvOk, EntryPrefix, NodesKeyed, Less, RangeStart, NodeEntry, Indexed, Covered;
    EntryOf(family, def, nodes, env, q);
    var n := nodes[EntryOwner(q)];
    EntryBelow(def, n, start, env);
    EntryBelow(def, n, end, env);
  }

  lemma RangeComplete(family: IndexFamily, def: IndexDefinition, nodes: NodeTable, env: Env, start: Value, end: Value,
                      n: Node)
    requires EnvOk(env) && NodesKeyed(nodes) && Coherent(family, def, nodes, env) && |def.propertyNames| == 1
    requires Ordinary(start) && Ordinary(end) && AllPlaced(def, nodes)
    requires Covered(def, nodes, n) && Between(def, n, start, end)
    ensures NodeEntry(def, n, env) in RangeKeys(family, def, start, end, env)
  {
    EntryIn(family, def, nodes, env, n);
    hide EncodeValues, SortedKeys, Coherent, EnvOk, EntryPrefix, NodesKeyed, Less, RangeStart, NodeEntry, Indexed, Covered,
      Ordinary, ValueLess;
    EntryBelow(def, n, start, env);
    EntryBelow(def, n, end, env);
  }

  /** Exactly the nodes with a value in the range, by value and then by id. */
  ghost predicate AnswersRange(def: IndexDefinition, nodes: NodeTable, start: Value, end: Value, list: seq<Node>)
    requires |def.propertyNames| == 1
  {
    && (forall n :: n in list <==> Covered(def, nodes, n) && Between(def, n, start, end))
    && (forall i, j :: 0 <= i < j < |list| ==> InValueOrder(def, list[i], list[j]))
  }

  function IdsOf(list: seq<Node>): (r: seq<Uuid>)
    ensures |r| == |list| && forall i :: 0 <= i < |r| ==> r[i] == list[i].id
  {
    seq(|list|, i requires 0 <= i < |list| => list[i].id)
  }

  lemma RangeOwned(family: IndexFamily, def: IndexDefinition, nodes: NodeTable, env: Env, start: Value, end: Value)
    requires EnvOk(env) && NodesKeyed(nodes) && Coherent(family, def, nodes, env) && |def.propertyNames| == 1
    requires Ordinary(start) && Ordinary(end) && AllPlaced(def, nodes)
    ensures Owned(nodes, RangeKeys(family, def, start, end, env))
    ensures forall k :: k in RangeKeys(family, def, start, end, env) ==> |k| >= 16
    ensures StrictlySorted(RangeKeys(family, def, start, end, env))
  {
    BetweenSorted(family.Keys, EntryPrefix(def.graphId, def.name, env), RangeStart(def, start, env), RangeStart(def, end, env));
    hide EnvOk, NodesKeyed, Coherent, Ordinary, AllPlaced, KeysBetween, SortedKeys, Less, EntryPrefix, RangeStart,
      EntryOwner;
    var ks := RangeKeys(family, def, start, end, env);
    forall i | 0 <= i < |ks| ensures |ks[i]| >= 41 && EntryOwner(ks[i]) in nodes {
      assert ks[i] in ks;
      RangeHit(family, def, nodes, env, start, end, ks[i]);
    }
    IsOwned(nodes, ks);
  }

  /**
   A range scan over one property returns exactly the nodes whose value lies in
   `start <= value < end`, by value and then by id.
   */
  lemma RangeExact(family: IndexFamily, def: IndexDefinition, nodes: NodeTable, env: Env, start: Value, end: Value)
    requires EnvOk(env) && NodesKeyed(nodes) && Coherent(family, def, nodes, env) && |def.propertyNames| == 1
    requires Ordinary(start) && Ordinary(end) && AllPlaced(def, nodes)
    ensures Owned(nodes, RangeKeys(family, def, start, end, env))
    ensures forall k :: k in RangeKeys(family, def, start, end, env) ==> |k| >= 16
    ensures AnswersRange(def, nodes, start, end, Owners(nodes, RangeKeys(family, def, start, end, env)))
    ensures IdsOf(Owners(nodes, RangeKeys(family, def, start, end, env))) == IdsAt(RangeKeys(family, def, start, end, env))
  {
    hide *;
    RangeOwned(family, def, nodes, env, start, end);
    var ks := RangeKeys(family, def, start, end, env);
    var list := Owners(nodes, ks);
    forall i | 0 <= i < |ks|
      ensures Covered(def, nodes, list[i]) && Between(def, list[i], start, end) && EntityId(ks[i]) == list[i].id
    {
      assert ks[i] in ks;
      RangeHit(family, def, nodes, env, start, end, ks[i]);
    }
    forall i, j | 0 <= i < j < |ks| ensures InValueOrder(def, list[i], list[j]) {
      assert ks[i] in ks && ks[j] in ks;
      RangeHit(family, def, nodes, env, start, end, ks[i]);
      RangeHit(family, def, nodes, env, start, end, ks[j]);
      SortedPair(ks, i, j);
      EntryOrder(def, list[i], list[j], env);
    }
    forall n | Covered(def, nodes, n) && Between(def, n, start, end) ensures n in list {
      RangeComplete(family, def, nodes, env, start, end, n);
      EntryIn(family, def, nodes, env, n);
      CoveredStored(def, nodes, n);
      var i :| 0 <= i < |ks| && ks[i] == NodeEntry(def, n, env);
      assert list[i] == n;
    }
    Answered(def, nodes, start, end, list);
  }

  lemma Answered(def: IndexDefinition, nodes: NodeTable, start: Value, end: Value, list: seq<Node>)
    requires |def.propertyNames| == 1
    requires forall i :: 0 <= i < |list| ==> Covered(def, nodes, list[i]) && Between(def, list[i], start, end)
    requires forall i, j :: 0 <= i < j < |list| ==> InValueOrder(def, list[i], list[j])
    requires forall n :: Covered(def, nodes, n) && Between(def, n, start, end) ==> n in list
    ensures AnswersRange(def, nodes, start, end, list)
  {
    hide Covered, Between, InValueOrder;
  }

  lemma SortedPair(ks: seq<Bytes>, i: nat, j: nat)
    requires StrictlySorted(ks) && i < j < |ks|
    ensures Less(ks[i], ks[j])
  {
  }
}
