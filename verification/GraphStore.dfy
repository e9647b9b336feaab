/**
 The families of the graph store: what the node and edge tables imply for the
 out-adjacency, in-adjacency and label indexes, what scanning them lists, and
 what adding and removing records does to them.
 */
module GraphStore {
  import opened Bytes
  import opened OrderedStore
  import opened Wrappers
  import opened Values
  import opened GraphKeys
  import opened SecondaryIndex

  datatype StorageError = NotFound

  type StorageResult<T> = Result<T, StorageError>

  function EdgeOf(e: Edge): Bytes {
    EdgeKey(e.graphId, e.id)
  }

  function OutKey(e: Edge): Bytes {
    AdjacencyKey(e.graphId, e.source, e.edgeLabel, e.id)
  }

  function InKey(e: Edge): Bytes {
    AdjacencyKey(e.graphId, e.target, e.edgeLabel, e.id)
  }

  function OutKeys(e: Edge): set<Bytes> {
    {OutKey(e)}
  }

  function InKeys(e: Edge): set<Bytes> {
    {InKey(e)}
  }

  function EdgeLabelKeys(e: Edge): set<Bytes> {
    {EdgeLabelKey(e)}
  }

  function NodeLabelKeys(n: Node): set<Bytes> {
    set l | l in n.labels :: LabelKey(n.graphId, l, n.id)
  }

  function Target(e: Edge): Uuid {
    e.target
  }

  function Source(e: Edge): Uuid {
    e.source
  }

  function NoValue<R>(r: R): Bytes {
    []
  }

  function EdgeLabelKey(e: Edge): Bytes {
    LabelKey(e.graphId, e.edgeLabel, e.id)
  }

  type EdgeTable = map<Bytes, Edge>

  ghost predicate EdgesKeyed(edges: EdgeTable) {
    forall k :: k in edges ==> k == EdgeOf(edges[k])
  }

  lemma EdgeOfInjective(a: Edge, b: Edge)
    requires EdgeOf(a) == EdgeOf(b)
    ensures a.graphId == b.graphId && a.id == b.id
  {
    assert EdgeOf(a)[..16] == a.graphId && EdgeOf(b)[..16] == b.graphId;
    assert EdgeOf(a)[16..] == a.id && EdgeOf(b)[16..] == b.id;
  }

  lemma EdgeKeysOwned(e: Edge)
    ensures |OutKey(e)| >= 48 && Owner(OutKey(e)) == EdgeOf(e)
    ensures |InKey(e)| >= 48 && Owner(InKey(e)) == EdgeOf(e)
    ensures forall q :: q in EdgeLabelKeys(e) ==> |q| >= 32 && Owner(q) == EdgeOf(e)
  {
    AdjacencyOwner(e.graphId, e.source, e.edgeLabel, e.id);
    AdjacencyOwner(e.graphId, e.target, e.edgeLabel, e.id);
    LabelOwner(e.graphId, e.edgeLabel, e.id);
  }

  lemma NodeKeysOwned(n: Node)
    ensures forall q :: q in NodeLabelKeys(n) ==> |q| >= 32 && Owner(q) == NodeOf(n)
  {
    forall l | l in n.labels
      ensures |LabelKey(n.graphId, l, n.id)| >= 32 && Owner(LabelKey(n.graphId, l, n.id)) == NodeOf(n)
    {
      LabelOwner(n.graphId, l, n.id);
    }
  }

  // ----- what the readers return -----

  /** The edge leaves `endpoint` in `graphId`, with a label the filter cannot tell from the wanted one. */
  predicate Leaves(e: Edge, graphId: Uuid, endpoint: Uuid, filter: Option<string>) {
    e.graphId == graphId && e.source == endpoint && (filter.Some? ==> SameLabelKey(filter.value, e.edgeLabel))
  }

  predicate Enters(e: Edge, graphId: Uuid, endpoint: Uuid, filter: Option<string>) {
    e.graphId == graphId && e.target == endpoint && (filter.Some? ==> SameLabelKey(filter.value, e.edgeLabel))
  }

  predicate Incident(e: Edge, graphId: Uuid, id: Uuid) {
    e.graphId == graphId && (e.source == id || e.target == id)
  }

  /** Exactly the stored edges with the property, each once. */
  ghost predicate ListsEdges(list: seq<Edge>, edges: EdgeTable, wanted: Edge -> bool) {
    && (forall e :: e in list <==> EdgeOf(e) in edges && edges[EdgeOf(e)] == e && wanted(e))
    && (forall i, j :: 0 <= i < j < |list| ==> list[i] != list[j])
  }

  /** The node carries a label the label index cannot tell from the wanted one. */
  predicate HasLabelKey(n: Node, name: string) {
    exists l | l in n.labels :: SameLabelKey(name, l)
  }

  /** The wanted nodes of a list, in its order. */
  function Select(list: seq<Node>, wanted: Node -> bool): seq<Node> {
    if list == [] then []
    else (if wanted(list[0]) then [list[0]] else []) + Select(list[1..], wanted)
  }

  function WithLabel(list: seq<Node>, name: string): seq<Node> {
    Select(list, (n: Node) => HasLabelKey(n, name))
  }

  function AdjacencyScan(graphId: Uuid, endpoint: Uuid, filter: Option<string>): Bytes {
    match filter
    case Some(name) => AdjacencyLabelPrefix(graphId, endpoint, name)
    case None => AdjacencyPrefix(graphId, endpoint)
  }

  lemma OutKeyScanned(e: Edge, graphId: Uuid, endpoint: Uuid, filter: Option<string>)
    ensures AdjacencyScan(graphId, endpoint, filter) <= OutKey(e) <==> Leaves(e, graphId, endpoint, filter)
  {
    match filter
    case Some(name) =>
      AdjacencyLabelStarts(graphId, endpoint, name, OutKey(e), e.source, e.edgeLabel, e.id, e.graphId);
    case None => AdjacencyStarts(graphId, endpoint, OutKey(e), e.source, e.edgeLabel, e.id, e.graphId);
  }

  lemma InKeyScanned(e: Edge, graphId: Uuid, endpoint: Uuid, filter: Option<string>)
    ensures AdjacencyScan(graphId, endpoint, filter) <= InKey(e) <==> Enters(e, graphId, endpoint, filter)
  {
    match filter
    case Some(name) =>
      AdjacencyLabelStarts(graphId, endpoint, name, InKey(e), e.target, e.edgeLabel, e.id, e.graphId);
    case None => AdjacencyStarts(graphId, endpoint, InKey(e), e.target, e.edgeLabel, e.id, e.graphId);
  }

  ghost predicate AllOwned(edges: EdgeTable, ks: seq<Bytes>) {
    forall i :: 0 <= i < |ks| ==> |ks[i]| >= 32 && Owner(ks[i]) in edges
  }

  /** The edges whose adjacency keys a scan met, in that order. */
  ghost function EdgesAt(edges: EdgeTable, ks: seq<Bytes>): (r: seq<Edge>)
    requires AllOwned(edges, ks)
    ensures |r| == |ks| && forall i :: 0 <= i < |ks| ==> r[i] == edges[Owner(ks[i])]
  {
    seq(|ks|, i requires 0 <= i < |ks| => edges[Owner(ks[i])])
  }

  /** How one adjacency index files its edges. */
  ghost predicate Files(edges: EdgeTable, index: map<Bytes, Uuid>, key: Edge -> Bytes, derive: Edge -> set<Bytes>,
                        value: Edge -> Uuid)
  {
    EdgesKeyed(edges) && IndexInv(edges, index, derive, value) && forall e :: derive(e) == {key(e)}
  }

  lemma FiledEdge(edges: EdgeTable, index: map<Bytes, Uuid>, key: Edge -> Bytes, derive: Edge -> set<Bytes>,
                  value: Edge -> Uuid, q: Bytes)
    requires Files(edges, index, key, derive, value) && q in index
    ensures |q| >= 32 && Owner(q) in edges && key(edges[Owner(q)]) == q && EdgeOf(edges[Owner(q)]) == Owner(q)
  {
    assert q in derive(edges[Owner(q)]);
  }

  lemma FiledKey(edges: EdgeTable, index: map<Bytes, Uuid>, key: Edge -> Bytes, derive: Edge -> set<Bytes>,
                 value: Edge -> Uuid, e: Edge)
    requires Files(edges, index, key, derive, value) && EdgeOf(e) in edges && edges[EdgeOf(e)] == e
    ensures key(e) in index && |key(e)| >= 32 && Owner(key(e)) == EdgeOf(e)
  {
    assert key(e) in derive(edges[EdgeOf(e)]);
  }

  lemma ScanOwned(edges: EdgeTable, index: map<Bytes, Uuid>, key: Edge -> Bytes, derive: Edge -> set<Bytes>,
                  value: Edge -> Uuid, prefix: Bytes)
    requires Files(edges, index, key, derive, value)
    ensures AllOwned(edges, KeysWithPrefix(index.Keys, prefix))
  {
    var ks := KeysWithPrefix(index.Keys, prefix);
    forall i | 0 <= i < |ks| ensures |ks[i]| >= 32 && Owner(ks[i]) in edges {
      assert ks[i] in ks;
    }
  }

  lemma ScanDistinct(edges: EdgeTable, index: map<Bytes, Uuid>, key: Edge -> Bytes, derive: Edge -> set<Bytes>,
                     value: Edge -> Uuid, prefix: Bytes, i: nat, j: nat)
    requires Files(edges, index, key, derive, value) && AllOwned(edges, KeysWithPrefix(index.Keys, prefix))
    requires i < j < |KeysWithPrefix(index.Keys, prefix)|
    ensures EdgesAt(edges, KeysWithPrefix(index.Keys, prefix))[i] != EdgesAt(edges, KeysWithPrefix(index.Keys, prefix))[j]
  {
    hide SortedKeys, Owner, EdgeOf, Files;
    var ks := KeysWithPrefix(index.Keys, prefix);
    assert ks[i] in ks && ks[j] in ks;
    FiledEdge(edges, index, key, derive, value, ks[i]);
    FiledEdge(edges, index, key, derive, value, ks[j]);
    SortedKeysDiffer((set k | k in index.Keys && prefix <= k), i, j);
  }

  lemma ScanFinds(edges: EdgeTable, index: map<Bytes, Uuid>, key: Edge -> Bytes, derive: Edge -> set<Bytes>,
                  value: Edge -> Uuid, prefix: Bytes, e: Edge)
    requires Files(edges, index, key, derive, value) && AllOwned(edges, KeysWithPrefix(index.Keys, prefix))
    ensures e in EdgesAt(edges, KeysWithPrefix(index.Keys, prefix)) <==>
              EdgeOf(e) in edges && edges[EdgeOf(e)] == e && prefix <= key(e)
  {
    hide SortedKeys, Owner, EdgeOf, Files;
    var ks := KeysWithPrefix(index.Keys, prefix);
    var list := EdgesAt(edges, ks);
    if e in list {
      var i :| 0 <= i < |ks| && list[i] == e;
      assert ks[i] in ks;
      FiledEdge(edges, index, key, derive, value, ks[i]);
    }
    if EdgeOf(e) in edges && edges[EdgeOf(e)] == e && prefix <= key(e) {
      FiledKey(edges, index, key, derive, value, e);
      assert key(e) in ks;
      var i :| 0 <= i < |ks| && ks[i] == key(e);
      assert list[i] == e;
    }
  }

  /** A scan of an adjacency index lists exactly the edges whose keys match, each once. */
  lemma ScanListsEdges(edges: EdgeTable, index: map<Bytes, Uuid>, key: Edge -> Bytes, derive: Edge -> set<Bytes>,
                       value: Edge -> Uuid, prefix: Bytes, wanted: Edge -> bool)
    requires Files(edges, index, key, derive, value)
    requires forall e :: prefix <= key(e) <==> wanted(e)
    ensures AllOwned(edges, KeysWithPrefix(index.Keys, prefix))
    ensures ListsEdges(EdgesAt(edges, KeysWithPrefix(index.Keys, prefix)), edges, wanted)
  {
    ScanOwned(edges, index, key, derive, value, prefix);
    hide *;
    var list := EdgesAt(edges, KeysWithPrefix(index.Keys, prefix));
    forall e ensures e in list <==> EdgeOf(e) in edges && edges[EdgeOf(e)] == e && wanted(e) {
      ScanFinds(edges, index, key, derive, value, prefix, e);
    }
    forall i, j | 0 <= i < j < |list| ensures list[i] != list[j] {
      ScanDistinct(edges, index, key, derive, value, prefix, i, j);
    }
    Lists(list, edges, wanted);
  }

  lemma Lists(list: seq<Edge>, edges: EdgeTable, wanted: Edge -> bool)
    requires forall e :: e in list <==> EdgeOf(e) in edges && edges[EdgeOf(e)] == e && wanted(e)
    requires forall i, j :: 0 <= i < j < |list| ==> list[i] != list[j]
    ensures ListsEdges(list, edges, wanted)
  {
  }

  // ----- how one write changes one index -----

  /** The index after an edge is stored: the keys of the version it replaces go, its own key comes. */
  ghost predicate EdgeFiled<V(!new)>(edges: EdgeTable, index: map<Bytes, V>, key: Edge -> Bytes, value: Edge -> V, e: Edge,
                                     index': map<Bytes, V>)
  {
    var cleared := if EdgeOf(e) in edges then index - {key(edges[EdgeOf(e)])} else index;
    index' == cleared[key(e) := value(e)]
  }

  lemma PutEdgeKeepsIndex<V(!new)>(edges: EdgeTable, index: map<Bytes, V>, key: Edge -> Bytes, derive: Edge -> set<Bytes>,
                                   value: Edge -> V, e: Edge, index': map<Bytes, V>)
    requires EdgesKeyed(edges) && IndexInv(edges, index, derive, value)
    requires forall x :: derive(x) == {key(x)}
    requires |key(e)| >= 32 && Owner(key(e)) == EdgeOf(e)
    requires EdgeFiled(edges, index, key, value, e, index')
    ensures IndexInv(edges[EdgeOf(e) := e], index', derive, value)
  {
    var k := EdgeOf(e);
    forall q | q in index && Owner(q) == k ensures k in edges && q == key(edges[k]) {
      assert q in derive(edges[Owner(q)]);
    }
    if k in edges {
      assert key(edges[k]) in derive(edges[k]);
    }
    assert key(e) in derive(e);
    hide EdgeOf, Owner;
    IndexPut(edges, index, derive, value, k, e, index');
  }

  lemma DeleteEdgeKeepsIndex<V(!new)>(edges: EdgeTable, index: map<Bytes, V>, key: Edge -> Bytes,
                                      derive: Edge -> set<Bytes>, value: Edge -> V, k: Bytes)
    requires EdgesKeyed(edges) && IndexInv(edges, index, derive, value) && k in edges
    requires forall x :: derive(x) == {key(x)}
    ensures IndexInv(edges - {k}, index - {key(edges[k])}, derive, value)
  {
    forall q | q in index && Owner(q) == k ensures q == key(edges[k]) {
      assert q in derive(edges[Owner(q)]);
    }
    assert key(edges[k]) in derive(edges[k]);
    hide EdgeOf, Owner;
    IndexRemove(edges, index, derive, value, k, index - {key(edges[k])});
  }

  /** Index entries carry no value. */
  function EmptyValues(keys: set<Bytes>): map<Bytes, Bytes> {
    map q | q in keys :: []
  }

  lemma PutNodeKeepsIndex(nodes: NodeTable, index: map<Bytes, Bytes>, n: Node, stale: set<Bytes>, index': map<Bytes, Bytes>)
    requires NodesKeyed(nodes) && IndexInv(nodes, index, NodeLabelKeys, NoValue)
    requires NodeOf(n) in nodes ==> stale <= NodeLabelKeys(nodes[NodeOf(n)]) <= stale + NodeLabelKeys(n)
    requires NodeOf(n) !in nodes ==> stale == {}
    requires index' == (index - stale) + EmptyValues(NodeLabelKeys(n))
    ensures IndexInv(nodes[NodeOf(n) := n], index', NodeLabelKeys, NoValue)
  {
    NodeKeysOwned(n);
    var k := NodeOf(n);
    hide NodeOf, Owner, NodeLabelKeys;
    forall q | q in index ensures Owner(q) == k ==> k in nodes && q in NodeLabelKeys(nodes[k]) {
    }
    IndexPut(nodes, index, NodeLabelKeys, NoValue, k, n, index');
  }

  lemma DeleteNodeKeepsIndex(nodes: NodeTable, index: map<Bytes, Bytes>, k: Bytes)
    requires NodesKeyed(nodes) && IndexInv(nodes, index, NodeLabelKeys, NoValue) && k in nodes
    ensures IndexInv(nodes - {k}, index - NodeLabelKeys(nodes[k]), NodeLabelKeys, NoValue)
  {
    hide NodeOf, Owner, NodeLabelKeys;
    IndexRemove(nodes, index, NodeLabelKeys, NoValue, k, index - NodeLabelKeys(nodes[k]));
  }

  // ----- label scans -----

  function NodeKeysOf(list: seq<Node>): (r: seq<Bytes>)
    ensures |r| == |list| && forall i :: 0 <= i < |list| ==> r[i] == NodeOf(list[i])
  {
    seq(|list|, i requires 0 <= i < |list| => NodeOf(list[i]))
  }

  lemma {:induction false} SortedRest(list: seq<Node>)
    requires list != [] && StrictlySorted(NodeKeysOf(list))
    ensures StrictlySorted(NodeKeysOf(list[1..]))
  {
    hide NodeOf, Less;
    forall i, j | 0 <= i < j < |list[1..]| ensures Less(NodeKeysOf(list[1..])[i], NodeKeysOf(list[1..])[j]) {
      assert Less(NodeKeysOf(list)[i + 1], NodeKeysOf(list)[j + 1]);
    }
  }

  lemma {:induction false} SelectMembers(list: seq<Node>, wanted: Node -> bool)
    ensures forall n :: n in Select(list, wanted) <==> n in list && wanted(n)
  {
    if list != [] {
      SelectMembers(list[1..], wanted);
      assert list == [list[0]] + list[1..];
    }
  }

  /** In a list sorted by key, the first key is below every later one. */
  lemma {:induction false} FirstBelow(list: seq<Node>, n: Node)
    requires list != [] && StrictlySorted(NodeKeysOf(list)) && n in list[1..]
    ensures Less(NodeOf(list[0]), NodeOf(n))
  {
    hide NodeOf, Less;
    var m :| 0 <= m < |list[1..]| && list[1..][m] == n;
    assert Less(NodeKeysOf(list)[0], NodeKeysOf(list)[m + 1]);
  }

  lemma {:induction false} SelectSorted(list: seq<Node>, wanted: Node -> bool)
    requires StrictlySorted(NodeKeysOf(list))
    ensures StrictlySorted(NodeKeysOf(Select(list, wanted)))
  {
    hide NodeOf, Less;
    if list != [] {
      var rest := Select(list[1..], wanted);
      SortedRest(list);
      SelectSorted(list[1..], wanted);
      SelectMembers(list[1..], wanted);
      forall j | 0 <= j < |rest| ensures Less(NodeOf(list[0]), NodeOf(rest[j])) {
        assert rest[j] in rest;
        FirstBelow(list, rest[j]);
      }
    }
  }

  lemma {:induction false} SelectExactly(list: seq<Node>, wanted: Node -> bool)
    ensures forall n :: n in Select(list, wanted) <==> n in list && wanted(n)
    ensures StrictlySorted(NodeKeysOf(list)) ==> StrictlySorted(NodeKeysOf(Select(list, wanted)))
  {
    hide *;
    SelectMembers(list, wanted);
    if StrictlySorted(NodeKeysOf(list)) {
      SelectSorted(list, wanted);
    }
  }

  lemma WithLabelExactly(list: seq<Node>, name: string)
    ensures forall n :: n in WithLabel(list, name) <==> n in list && HasLabelKey(n, name)
    ensures StrictlySorted(NodeKeysOf(list)) ==> StrictlySorted(NodeKeysOf(WithLabel(list, name)))
  {
    SelectExactly(list, (n: Node) => HasLabelKey(n, name));
  }

  lemma NodesOfExactly(nodes: NodeTable, graphId: Uuid)
    requires NodesKeyed(nodes)
    ensures NodeKeysOf(NodesOf(nodes, graphId)) == KeysWithPrefix(nodes.Keys, graphId)
    ensures StrictlySorted(NodeKeysOf(NodesOf(nodes, graphId)))
    ensures forall n :: n in NodesOf(nodes, graphId) <==> NodeOf(n) in nodes && nodes[NodeOf(n)] == n && n.graphId == graphId
  {
    var ks := KeysWithPrefix(nodes.Keys, graphId);
    SortedKeysSorted((set k | k in nodes.Keys && graphId <= k));
    var list := NodesOf(nodes, graphId);
    hide SortedKeys, Less;
    forall i | 0 <= i < |ks| ensures ks[i] == NodeOf(list[i]) && list[i].graphId == graphId {
      assert ks[i] in ks;
      assert NodeOf(list[i])[..16] == list[i].graphId;
    }
    forall n | NodeOf(n) in nodes && nodes[NodeOf(n)] == n && n.graphId == graphId ensures n in list {
      assert NodeOf(n)[..16] == graphId;
      assert NodeOf(n) in ks;
      var i :| 0 <= i < |ks| && ks[i] == NodeOf(n);
      assert list[i] == n;
    }
  }

  // ----- the invariant of the whole graph -----

  /** The adjacency and edge-label families are exactly what the edge table implies. */
  ghost predicate EdgeFamiliesInv(edges: EdgeTable, adjOut: map<Bytes, Uuid>, adjIn: map<Bytes, Uuid>,
                                  edgeLabels: map<Bytes, Bytes>)
  {
    && EdgesKeyed(edges)
    && IndexInv(edges, adjOut, OutKeys, Target)
    && IndexInv(edges, adjIn, InKeys, Source)
    && IndexInv(edges, edgeLabels, EdgeLabelKeys, NoValue)
  }

  /** The node-label family is exactly what the node table implies. */
  ghost predicate NodeFamiliesInv(nodes: NodeTable, nodeLabels: map<Bytes, Bytes>) {
    NodesKeyed(nodes) && IndexInv(nodes, nodeLabels, NodeLabelKeys, NoValue)
  }

  /** The two tables determine every index family. */
  lemma TablesDetermineFamilies(nodes: NodeTable, edges: EdgeTable, out1: map<Bytes, Uuid>, out2: map<Bytes, Uuid>,
                                in1: map<Bytes, Uuid>, in2: map<Bytes, Uuid>, el1: map<Bytes, Bytes>,
                                el2: map<Bytes, Bytes>, nl1: map<Bytes, Bytes>, nl2: map<Bytes, Bytes>)
    requires EdgeFamiliesInv(edges, out1, in1, el1) && EdgeFamiliesInv(edges, out2, in2, el2)
    requires NodeFamiliesInv(nodes, nl1) && NodeFamiliesInv(nodes, nl2)
    ensures out1 == out2 && in1 == in2 && el1 == el2 && nl1 == nl2
  {
    IndexDetermined(edges, out1, out2, OutKeys, Target);
    IndexDetermined(edges, in1, in2, InKeys, Source);
    IndexDetermined(edges, el1, el2, EdgeLabelKeys, NoValue);
    IndexDetermined(nodes, nl1, nl2, NodeLabelKeys, NoValue);
  }

  lemma AfterPutOut(edges: EdgeTable, index: map<Bytes, Uuid>, e: Edge, index': map<Bytes, Uuid>)
    requires EdgesKeyed(edges) && IndexInv(edges, index, OutKeys, Target) && EdgeFiled(edges, index, OutKey, Target, e, index')
    ensures IndexInv(edges[EdgeOf(e) := e], index', OutKeys, Target)
  {
    EdgeKeysOwned(e);
    hide IndexInv, EdgesKeyed, EdgeFiled, Owner, AdjacencyKey, EdgeOf;
    PutEdgeKeepsIndex(edges, index, OutKey, OutKeys, Target, e, index');
  }

  lemma AfterPutIn(edges: EdgeTable, index: map<Bytes, Uuid>, e: Edge, index': map<Bytes, Uuid>)
    requires EdgesKeyed(edges) && IndexInv(edges, index, InKeys, Source) && EdgeFiled(edges, index, InKey, Source, e, index')
    ensures IndexInv(edges[EdgeOf(e) := e], index', InKeys, Source)
  {
    EdgeKeysOwned(e);
    hide IndexInv, EdgesKeyed, EdgeFiled, Owner, AdjacencyKey, EdgeOf;
    PutEdgeKeepsIndex(edges, index, InKey, InKeys, Source, e, index');
  }

  lemma AfterPutLabel(edges: EdgeTable, index: map<Bytes, Bytes>, e: Edge, index': map<Bytes, Bytes>)
    requires EdgesKeyed(edges) && IndexInv(edges, index, EdgeLabelKeys, NoValue)
    requires EdgeFiled(edges, index, EdgeLabelKey, NoValue, e, index')
    ensures IndexInv(edges[EdgeOf(e) := e], index', EdgeLabelKeys, NoValue)
  {
    EdgeKeysOwned(e);
    assert EdgeLabelKey(e) in EdgeLabelKeys(e);
    hide IndexInv, EdgesKeyed, EdgeFiled, Owner, LabelKey, EdgeOf, EdgeLabelKey;
    PutEdgeKeepsIndex(edges, index, EdgeLabelKey, EdgeLabelKeys, NoValue, e, index');
  }

  lemma AfterPutEdge(edges: EdgeTable, adjOut: map<Bytes, Uuid>, adjIn: map<Bytes, Uuid>, edgeLabels: map<Bytes, Bytes>,
                     e: Edge, out: map<Bytes, Uuid>, into: map<Bytes, Uuid>, labels: map<Bytes, Bytes>)
    requires EdgeFamiliesInv(edges, adjOut, adjIn, edgeLabels)
    requires EdgeFiled(edges, adjOut, OutKey, Target, e, out)
    requires EdgeFiled(edges, adjIn, InKey, Source, e, into)
    requires EdgeFiled(edges, edgeLabels, EdgeLabelKey, NoValue, e, labels)
    ensures EdgeFamiliesInv(edges[EdgeOf(e) := e], out, into, labels)
  {
    hide IndexInv, EdgeFiled;
    AfterPutOut(edges, adjOut, e, out);
    AfterPutIn(edges, adjIn, e, into);
    AfterPutLabel(edges, edgeLabels, e, labels);
  }

  lemma AfterDeleteEdge(edges: EdgeTable, adjOut: map<Bytes, Uuid>, adjIn: map<Bytes, Uuid>,
                        edgeLabels: map<Bytes, Bytes>, k: Bytes)
    requires EdgeFamiliesInv(edges, adjOut, adjIn, edgeLabels) && k in edges
    ensures EdgeFamiliesInv(edges - {k}, adjOut - {OutKey(edges[k])}, adjIn - {InKey(edges[k])},
                            edgeLabels - {EdgeLabelKey(edges[k])})
  {
    DeleteEdgeKeepsIndex(edges, adjOut, OutKey, OutKeys, Target, k);
    DeleteEdgeKeepsIndex(edges, adjIn, InKey, InKeys, Source, k);
    DeleteEdgeKeepsIndex(edges, edgeLabels, EdgeLabelKey, EdgeLabelKeys, NoValue, k);
    hide IndexInv, OutKeys, InKeys, EdgeLabelKeys;
  }

  lemma AfterPutNode(nodes: NodeTable, nodeLabels: map<Bytes, Bytes>, n: Node, stale: set<Bytes>, pending: map<Bytes, Bytes>)
    requires NodeFamiliesInv(nodes, nodeLabels)
    requires NodeOf(n) in nodes ==> stale <= NodeLabelKeys(nodes[NodeOf(n)]) <= stale + NodeLabelKeys(n)
    requires NodeOf(n) !in nodes ==> stale == {}
    requires pending == (nodeLabels - stale) + EmptyValues(NodeLabelKeys(n))
    ensures NodeFamiliesInv(nodes[NodeOf(n) := n], pending)
  {
    PutNodeKeepsIndex(nodes, nodeLabels, n, stale, pending);
    hide IndexInv, NodeLabelKeys, EmptyValues;
  }

  lemma AfterDeleteNode(nodes: NodeTable, nodeLabels: map<Bytes, Bytes>, k: Bytes)
    requires NodeFamiliesInv(nodes, nodeLabels) && k in nodes
    ensures NodeFamiliesInv(nodes - {k}, nodeLabels - NodeLabelKeys(nodes[k]))
  {
    DeleteNodeKeepsIndex(nodes, nodeLabels, k);
    hide IndexInv, NodeLabelKeys;
  }

  lemma AfterDropEdges(edges: EdgeTable, adjOut: map<Bytes, Uuid>, adjIn: map<Bytes, Uuid>,
                       edgeLabels: map<Bytes, Bytes>, graphId: Uuid)
    requires EdgeFamiliesInv(edges, adjOut, adjIn, edgeLabels)
    ensures EdgeFamiliesInv(WithoutGraph(edges, graphId), WithoutGraph(adjOut, graphId), WithoutGraph(adjIn, graphId),
                            WithoutGraph(edgeLabels, graphId))
  {
    IndexDropGraph(edges, adjOut, OutKeys, Target, graphId);
    IndexDropGraph(edges, adjIn, InKeys, Source, graphId);
    IndexDropGraph(edges, edgeLabels, EdgeLabelKeys, NoValue, graphId);
    hide IndexInv;
  }

  /** An adjacency scan of the stored graph: every key leads to an edge, and the edges are exactly the wanted ones. */
  lemma OutgoingScan(edges: EdgeTable, adjOut: map<Bytes, Uuid>, adjIn: map<Bytes, Uuid>, edgeLabels: map<Bytes, Bytes>,
                     graphId: Uuid, source: Uuid, filter: Option<string>)
    requires EdgeFamiliesInv(edges, adjOut, adjIn, edgeLabels)
    ensures var ks := KeysWithPrefix(adjOut.Keys, AdjacencyScan(graphId, source, filter));
            AllOwned(edges, ks) && InGraph(graphId, ks)
            && ListsEdges(EdgesAt(edges, ks), edges, e => Leaves(e, graphId, source, filter))
  {
    var prefix := AdjacencyScan(graphId, source, filter);
    forall e ensures prefix <= OutKey(e) <==> Leaves(e, graphId, source, filter) {
      OutKeyScanned(e, graphId, source, filter);
    }
    ScanInGraph(adjOut.Keys, graphId, source, filter);
    hide IndexInv, Leaves, AdjacencyScan, OutKey, ListsEdges, AllOwned, KeysWithPrefix, InGraph;
    ScanListsEdges(edges, adjOut, OutKey, OutKeys, Target, prefix, e => Leaves(e, graphId, source, filter));
  }

  lemma IncomingScan(edges: EdgeTable, adjOut: map<Bytes, Uuid>, adjIn: map<Bytes, Uuid>, edgeLabels: map<Bytes, Bytes>,
                     graphId: Uuid, target: Uuid, filter: Option<string>)
    requires EdgeFamiliesInv(edges, adjOut, adjIn, edgeLabels)
    ensures var ks := KeysWithPrefix(adjIn.Keys, AdjacencyScan(graphId, target, filter));
            AllOwned(edges, ks) && InGraph(graphId, ks)
            && ListsEdges(EdgesAt(edges, ks), edges, e => Enters(e, graphId, target, filter))
  {
    var prefix := AdjacencyScan(graphId, target, filter);
    forall e ensures prefix <= InKey(e) <==> Enters(e, graphId, target, filter) {
      InKeyScanned(e, graphId, target, filter);
    }
    ScanInGraph(adjIn.Keys, graphId, target, filter);
    hide IndexInv, Enters, AdjacencyScan, InKey, ListsEdges, AllOwned, KeysWithPrefix, InGraph;
    ScanListsEdges(edges, adjIn, InKey, InKeys, Source, prefix, e => Enters(e, graphId, target, filter));
  }

  ghost predicate InGraph(graphId: Uuid, ks: seq<Bytes>) {
    forall i :: 0 <= i < |ks| ==> graphId <= ks[i]
  }

  lemma ScanInGraph(keys: set<Bytes>, graphId: Uuid, endpoint: Uuid, filter: Option<string>)
    ensures InGraph(graphId, KeysWithPrefix(keys, AdjacencyScan(graphId, endpoint, filter)))
  {
    var p := AdjacencyScan(graphId, endpoint, filter);
    var ks := KeysWithPrefix(keys, p);
    assert p[..16] == graphId;
    forall i | 0 <= i < |ks| ensures graphId <= ks[i] {
      assert ks[i] in ks;
      assert ks[i][..16] == p[..16];
    }
  }
}
