/**
 `StorageEngine` as an object: the column families of the graph, changed by
 atomic batches and read by prefix scans. Under `GraphInv` the two tables
 determine every index, so the contracts speak of the tables alone.
 */
module StorageEngines {
  import opened Bytes
  import opened OrderedStore
  import opened Wrappers
  import opened Values
  import opened GraphKeys
  import opened SecondaryIndex
  import opened GraphStore
  import opened PropertyIndex

  ghost function WithoutIncident(edges: EdgeTable, graphId: Uuid, id: Uuid): EdgeTable {
    map k | k in edges && !Incident(edges[k], graphId, id) :: edges[k]
  }

  /** The keys of the listed edges. */
  ghost function KeysOf(list: seq<Edge>): set<Bytes> {
    set e | e in list :: EdgeOf(e)
  }

  method RemoveLabelKeys(index: map<Bytes, Bytes>, graphId: Uuid, labels: set<string>, id: Uuid)
    returns (pending: map<Bytes, Bytes>)
    ensures pending == index - (set l | l in labels :: LabelKey(graphId, l, id))
  {
    hide LabelKey;
    pending := index;
    var todo := labels;
    while todo != {}
      invariant todo <= labels
      invariant pending == index - (set l | l in labels - todo :: LabelKey(graphId, l, id))
      decreases todo
    {
      var l :| l in todo;
      assert labels - (todo - {l}) == (labels - todo) + {l};
      pending := pending - {LabelKey(graphId, l, id)};
      todo := todo - {l};
    }
    assert labels - todo == labels;
  }

  method AddLabelKeys(index: map<Bytes, Bytes>, graphId: Uuid, labels: set<string>, id: Uuid)
    returns (pending: map<Bytes, Bytes>)
    ensures pending == index + EmptyValues(set l | l in labels :: LabelKey(graphId, l, id))
  {
    hide LabelKey;
    pending := index;
    var todo := labels;
    while todo != {}
      invariant todo <= labels
      invariant pending == index + EmptyValues(set l | l in labels - todo :: LabelKey(graphId, l, id))
      decreases todo
    {
      var l :| l in todo;
      assert labels - (todo - {l}) == (labels - todo) + {l};
      pending := pending[LabelKey(graphId, l, id) := []];
      todo := todo - {l};
    }
    assert labels - todo == labels;
  }

  class StorageEngine {
    const index: IndexManager
    var nodes: NodeTable
    var edges: EdgeTable
    var adjOut: map<Bytes, Uuid>
    var adjIn: map<Bytes, Uuid>
    var nodeLabels: map<Bytes, Bytes>
    var edgeLabels: map<Bytes, Bytes>

    /** The label and adjacency families are exactly what the node and edge tables imply. */
    ghost predicate GraphInv()
      reads this
    {
      EdgeFamiliesInv(edges, adjOut, adjIn, edgeLabels) && NodeFamiliesInv(nodes, nodeLabels)
    }

    constructor (index: IndexManager)
      ensures GraphInv() && nodes == map[] && edges == map[] && this.index == index
    {
      this.index := index;
      nodes, edges, adjOut, adjIn, nodeLabels, edgeLabels := map[], map[], map[], map[], map[], map[];
    }

    // ----- nodes -----

    method PutNode(node: Node)
      requires GraphInv()
      modifies this`nodes, this`nodeLabels
      ensures GraphInv() && nodes == old(nodes)[NodeOf(node) := node]
    {
      hide EdgeFamiliesInv, NodeFamiliesInv, LabelKey, EmptyValues;
      var pending := nodeLabels;
      var k := NodeOf(node);
      ghost var stale := {};
      if k in nodes {
        var dropped := nodes[k].labels - node.labels;
        pending := RemoveLabelKeys(pending, node.graphId, dropped, node.id);
        stale := set l | l in dropped :: LabelKey(node.graphId, l, node.id);
        OldNodeLabels(nodes, nodeLabels, node);
      }
      pending := AddLabelKeys(pending, node.graphId, node.labels, node.id);
      AfterPutNode(nodes, nodeLabels, node, stale, pending);
      nodes := nodes[k := node];
      nodeLabels := pending;
    }

    method GetNode(graphId: Uuid, id: Uuid) returns (r: StorageResult<Node>)
      ensures r == if NodeKey(graphId, id) in nodes then Success(nodes[NodeKey(graphId, id)]) else Failure(NotFound)
    {
      var k := NodeKey(graphId, id);
      return if k in nodes then Success(nodes[k]) else Failure(NotFound);
    }

    /** Deletes the node, its label entries and every edge at it; nothing else changes. */
    method DeleteNode(graphId: Uuid, id: Uuid) returns (r: StorageResult<()>)
      requires GraphInv()
      modifies this
      ensures GraphInv()
      ensures NodeKey(graphId, id) !in old(nodes) ==>
                r == Failure(NotFound) && nodes == old(nodes) && edges == old(edges)
      ensures NodeKey(graphId, id) in old(nodes) ==>
                r == Success(()) && nodes == old(nodes) - {NodeKey(graphId, id)}
                && edges == WithoutIncident(old(edges), graphId, id)
    {
      assert EdgesKeyed(edges);
      hide EdgeFamiliesInv, NodeFamiliesInv, LabelKey, ListsEdges, EdgesKeyed;
      var found := GetNode(graphId, id);
      if found.Failure? {
        return Failure(NotFound);
      }
      var node := found.value;
      var outgoing := GetOutgoingEdges(graphId, id, None);
      var incoming := GetIncomingEdges(graphId, id, None);
      BothEndsAreIncident(edges, outgoing.value, incoming.value, graphId, id);
      DeleteEach(outgoing.value + incoming.value);
      var k := NodeKey(graphId, id);
      NodeKeyParts(nodes, nodeLabels, graphId, id);
      var pending := RemoveLabelKeys(nodeLabels, graphId, node.labels, id);
      AfterDeleteNode(nodes, nodeLabels, k);
      nodes := nodes - {k};
      nodeLabels := pending;
      return Success(());
    }

    method ScanNodes(graphId: Uuid) returns (list: seq<Node>)
      requires GraphInv()
      ensures list == NodesOf(nodes, graphId)
    {
      hide *;
      var ks := ScanPrefix(nodes.Keys, graphId);
      list := [];
      var i := 0;
      while i < |ks|
        invariant 0 <= i <= |ks| && list == NodesOf(nodes, graphId)[..i]
      {
        list := list + [nodes[ks[i]]];
        i := i + 1;
      }
      assert NodesOf(nodes, graphId)[..i] == NodesOf(nodes, graphId);
    }

    /** Never meets a missing node, and lists the graph's nodes with the label in key order. */
    method ScanNodesByLabel(graphId: Uuid, name: string) returns (r: StorageResult<seq<Node>>)
      requires GraphInv()
      ensures r == Success(WithLabel(NodesOf(nodes, graphId), name))
    {
      LabelScanOwned(nodes, nodeLabels, graphId, name);
      LabelScanExact(nodes, nodeLabels, graphId, name);
      hide *;
      var ks := ScanPrefix(nodeLabels.Keys, LabelPrefix(graphId, name));
      r := LoadNodes(graphId, ks);
    }

    /** Loads the node each label key names by its last sixteen bytes. */
    method LoadNodes(graphId: Uuid, ks: seq<Bytes>) returns (r: StorageResult<seq<Node>>)
      requires NodesOwned(nodes, graphId, ks)
      ensures r == Success(NodesAt(nodes, graphId, ks))
    {
      hide Owner, NodeKey, NodesAt;
      var list := [];
      var i := 0;
      while i < |ks|
        invariant 0 <= i <= |ks| && list == NodesAt(nodes, graphId, ks)[..i]
      {
        var got := GetNode(graphId, ks[i][|ks[i]| - 16..]);
        if got.Failure? {
          return Failure(NotFound);
        }
        list := list + [got.value];
        i := i + 1;
      }
      assert NodesAt(nodes, graphId, ks)[..i] == NodesAt(nodes, graphId, ks);
      return Success(list);
    }

    // ----- edges -----

    method PutEdge(edge: Edge)
      requires GraphInv()
      modifies this`edges, this`adjOut, this`adjIn, this`edgeLabels
      ensures GraphInv() && edges == old(edges)[EdgeOf(edge) := edge]
    {
      hide EdgeFamiliesInv, NodeFamiliesInv, AdjacencyKey, LabelKey;
      var out: map<Bytes, Uuid> := adjOut;
      var into: map<Bytes, Uuid> := adjIn;
      var labels: map<Bytes, Bytes> := edgeLabels;
      var k := EdgeOf(edge);
      if k in edges {
        var was := edges[k];
        OldEdgeIds(edges, adjOut, adjIn, edgeLabels, edge);
        if was.source != edge.source || was.target != edge.target || was.edgeLabel != edge.edgeLabel {
          out := out - {AdjacencyKey(edge.graphId, was.source, was.edgeLabel, edge.id)};
          into := into - {AdjacencyKey(edge.graphId, was.target, was.edgeLabel, edge.id)};
          labels := labels - {LabelKey(edge.graphId, was.edgeLabel, edge.id)};
        }
      }
      out := out[OutKey(edge) := edge.target];
      into := into[InKey(edge) := edge.source];
      labels := labels[LabelKey(edge.graphId, edge.edgeLabel, edge.id) := []];
      AfterPutEdge(edges, adjOut, adjIn, edgeLabels, edge, out, into, labels);
      edges := edges[k := edge];
      adjOut, adjIn, edgeLabels := out, into, labels;
    }

    method GetEdge(graphId: Uuid, id: Uuid) returns (r: StorageResult<Edge>)
      ensures r == if EdgeKey(graphId, id) in edges then Success(edges[EdgeKey(graphId, id)]) else Failure(NotFound)
    {
      var k := EdgeKey(graphId, id);
      return if k in edges then Success(edges[k]) else Failure(NotFound);
    }

    method DeleteEdge(graphId: Uuid, id: Uuid) returns (r: StorageResult<()>)
      requires GraphInv()
      modifies this`edges, this`adjOut, this`adjIn, this`edgeLabels
      ensures GraphInv() && edges == old(edges) - {EdgeKey(graphId, id)}
      ensures r == if EdgeKey(graphId, id) in old(edges) then Success(()) else Failure(NotFound)
    {
      hide EdgeFamiliesInv, NodeFamiliesInv, AdjacencyKey, LabelKey;
      var k := EdgeKey(graphId, id);
      if k !in edges {
        return Failure(NotFound);
      }
      var edge := edges[k];
      EdgeKeyParts(edges, adjOut, adjIn, edgeLabels, graphId, id);
      AfterDeleteEdge(edges, adjOut, adjIn, edgeLabels, k);
      edges := edges - {k};
      adjOut := adjOut - {AdjacencyKey(graphId, edge.source, edge.edgeLabel, id)};
      adjIn := adjIn - {AdjacencyKey(graphId, edge.target, edge.edgeLabel, id)};
      edgeLabels := edgeLabels - {LabelKey(graphId, edge.edgeLabel, id)};
      return Success(());
    }

    /** Deletes the listed edges, each once however often it is listed. */
    method DeleteEach(list: seq<Edge>)
      requires GraphInv()
      modifies this`edges, this`adjOut, this`adjIn, this`edgeLabels
      requires forall i, j :: 0 <= i < |list| && 0 <= j < |list| && list[i].id == list[j].id ==> list[i] == list[j]
      ensures GraphInv() && edges == old(edges) - KeysOf(list)
    {
      hide EdgeFamiliesInv, NodeFamiliesInv, EdgeKey;
      var seen: set<Uuid> := {};
      var i := 0;
      while i < |list|
        invariant 0 <= i <= |list| && GraphInv()
        invariant edges == old(edges) - KeysOf(list[..i])
        invariant forall id :: id in seen ==> exists j :: 0 <= j < i && list[j].id == id
      {
        var edge := list[i];
        KeysOfStep(list, i);
        if edge.id !in seen {
          seen := seen + {edge.id};
          var deleted := DeleteEdge(edge.graphId, edge.id);
        }
        i := i + 1;
      }
      assert list[..i] == list;
    }

    /** Never meets a missing edge, and lists exactly the edges that leave the node, each once. */
    method GetOutgoingEdges(graphId: Uuid, source: Uuid, filter: Option<string>) returns (r: StorageResult<seq<Edge>>)
      requires GraphInv()
      ensures r.Success? && ListsEdges(r.value, edges, e => Leaves(e, graphId, source, filter))
    {
      OutgoingScan(edges, adjOut, adjIn, edgeLabels, graphId, source, filter);
      hide *;
      var ks := ScanPrefix(adjOut.Keys, AdjacencyScan(graphId, source, filter));
      r := LoadEdges(graphId, ks);
    }

    method GetIncomingEdges(graphId: Uuid, target: Uuid, filter: Option<string>) returns (r: StorageResult<seq<Edge>>)
      requires GraphInv()
      ensures r.Success? && ListsEdges(r.value, edges, e => Enters(e, graphId, target, filter))
    {
      IncomingScan(edges, adjOut, adjIn, edgeLabels, graphId, target, filter);
      hide *;
      var ks := ScanPrefix(adjIn.Keys, AdjacencyScan(graphId, target, filter));
      r := LoadEdges(graphId, ks);
    }

    /** Loads the edge each adjacency key names by its last sixteen bytes. */
    method LoadEdges(graphId: Uuid, ks: seq<Bytes>) returns (r: StorageResult<seq<Edge>>)
      requires AllOwned(edges, ks) && InGraph(graphId, ks)
      ensures r == Success(EdgesAt(edges, ks))
    {
      hide EdgesAt;
      var list := [];
      var i := 0;
      while i < |ks|
        invariant 0 <= i <= |ks| && list == EdgesAt(edges, ks)[..i]
      {
        OwnerFromScan(graphId, ks, i);
        var got := GetEdge(graphId, ks[i][|ks[i]| - 16..]);
        if got.Failure? {
          return Failure(NotFound);
        }
        list := list + [got.value];
        i := i + 1;
      }
      assert EdgesAt(edges, ks)[..i] == EdgesAt(edges, ks);
      return Success(list);
    }

    // ----- graphs -----

    /** Everything stored under the graph's id goes, in every family; other graphs keep everything. */
    method DeleteGraph(graphId: Uuid)
      requires GraphInv() && index.Valid()
      modifies this, index
      ensures GraphInv() && index.Valid()
      ensures nodes == WithoutGraph(old(nodes), graphId) && edges == WithoutGraph(old(edges), graphId)
      ensures index.family == WithoutGraph(old(index.family), graphId)
    {
      hide EdgeFamiliesInv, NodeFamiliesInv, WithoutGraph, FamilyOk, EnvOk, SortedKeys;
      DropGraphFamilies(graphId);
      FamilyWithoutGraph(index.family, graphId, index.env);
      index.family := DropPrefix(index.family, graphId);
    }

    method DropGraphFamilies(graphId: Uuid)
      requires GraphInv()
      modifies this
      ensures GraphInv()
      ensures nodes == WithoutGraph(old(nodes), graphId) && edges == WithoutGraph(old(edges), graphId)
    {
      hide EdgeFamiliesInv, NodeFamiliesInv, WithoutGraph;
      var nodes', nodeLabels' := DropNodeFamilies(nodes, nodeLabels, graphId);
      var edges', adjOut', adjIn', edgeLabels' := DropEdgeFamilies(edges, adjOut, adjIn, edgeLabels, graphId);
      nodes, nodeLabels := nodes', nodeLabels';
      edges, adjOut, adjIn, edgeLabels := edges', adjOut', adjIn', edgeLabels';
    }
  }

  method DropNodeFamilies(nodes: NodeTable, nodeLabels: map<Bytes, Bytes>, graphId: Uuid)
    returns (nodes': NodeTable, nodeLabels': map<Bytes, Bytes>)
    requires NodeFamiliesInv(nodes, nodeLabels)
    ensures nodes' == WithoutGraph(nodes, graphId) && NodeFamiliesInv(nodes', nodeLabels')
  {
    IndexDropGraph(nodes, nodeLabels, NodeLabelKeys, NoValue, graphId);
    hide IndexInv;
    nodes' := DropPrefix(nodes, graphId);
    nodeLabels' := DropPrefix(nodeLabels, graphId);
  }

  method DropEdgeFamilies(edges: EdgeTable, adjOut: map<Bytes, Uuid>, adjIn: map<Bytes, Uuid>,
                          edgeLabels: map<Bytes, Bytes>, graphId: Uuid)
    returns (edges': EdgeTable, adjOut': map<Bytes, Uuid>, adjIn': map<Bytes, Uuid>, edgeLabels': map<Bytes, Bytes>)
    requires EdgeFamiliesInv(edges, adjOut, adjIn, edgeLabels)
    ensures edges' == WithoutGraph(edges, graphId) && EdgeFamiliesInv(edges', adjOut', adjIn', edgeLabels')
  {
    AfterDropEdges(edges, adjOut, adjIn, edgeLabels, graphId);
    hide EdgeFamiliesInv, WithoutGraph;
    edges' := DropPrefix(edges, graphId);
    adjOut' := DropPrefix(adjOut, graphId);
    adjIn' := DropPrefix(adjIn, graphId);
    edgeLabels' := DropPrefix(edgeLabels, graphId);
  }

  method DropPrefix<V>(family: map<Bytes, V>, prefix: Bytes) returns (rest: map<Bytes, V>)
    ensures rest == WithoutGraph(family, prefix)
  {
    var ks := ScanPrefix(family.Keys, prefix);
    var batch := DeleteAll(ks);
    WriteDeletes(family, ks, batch);
    rest := Write(family, batch);
  }

  // ----- why the methods keep the invariant -----

  lemma FamilyWithoutGraph(family: IndexFamily, graphId: Uuid, env: Env)
    requires FamilyOk(family, env)
    ensures FamilyOk(WithoutGraph(family, graphId), env)
  {
    hide MetaKey;
  }

  lemma OldNodeLabels(nodes: NodeTable, nodeLabels: map<Bytes, Bytes>, node: Node)
    requires NodeFamiliesInv(nodes, nodeLabels) && NodeOf(node) in nodes
    ensures var was := nodes[NodeOf(node)];
            var stale := set l | l in was.labels - node.labels :: LabelKey(node.graphId, l, node.id);
            stale <= NodeLabelKeys(was) <= stale + NodeLabelKeys(node)
  {
    NodeOfInjective(nodes[NodeOf(node)], node);
    hide LabelKey, IndexInv;
  }

  lemma OldEdgeIds(edges: EdgeTable, adjOut: map<Bytes, Uuid>, adjIn: map<Bytes, Uuid>, edgeLabels: map<Bytes, Bytes>,
                   edge: Edge)
    requires EdgeFamiliesInv(edges, adjOut, adjIn, edgeLabels) && EdgeOf(edge) in edges
    ensures edges[EdgeOf(edge)].graphId == edge.graphId && edges[EdgeOf(edge)].id == edge.id
  {
    hide IndexInv;
    EdgeOfInjective(edges[EdgeOf(edge)], edge);
  }

  lemma NodeKeyParts(nodes: NodeTable, nodeLabels: map<Bytes, Bytes>, graphId: Uuid, id: Uuid)
    requires NodeFamiliesInv(nodes, nodeLabels) && NodeKey(graphId, id) in nodes
    ensures nodes[NodeKey(graphId, id)].graphId == graphId && nodes[NodeKey(graphId, id)].id == id
  {
    hide IndexInv;
    var n := nodes[NodeKey(graphId, id)];
    assert NodeOf(n)[..16] == n.graphId && NodeOf(n)[16..] == n.id;
  }

  lemma EdgeKeyParts(edges: EdgeTable, adjOut: map<Bytes, Uuid>, adjIn: map<Bytes, Uuid>, edgeLabels: map<Bytes, Bytes>,
                     graphId: Uuid, id: Uuid)
    requires EdgeFamiliesInv(edges, adjOut, adjIn, edgeLabels) && EdgeKey(graphId, id) in edges
    ensures edges[EdgeKey(graphId, id)].graphId == graphId && edges[EdgeKey(graphId, id)].id == id
  {
    hide IndexInv;
    var e := edges[EdgeKey(graphId, id)];
    assert EdgeOf(e)[..16] == e.graphId && EdgeOf(e)[16..] == e.id;
  }

  lemma OwnerFromScan(graphId: Uuid, ks: seq<Bytes>, i: nat)
    requires InGraph(graphId, ks) && i < |ks| && |ks[i]| >= 32
    ensures EdgeKey(graphId, ks[i][|ks[i]| - 16..]) == Owner(ks[i])
  {
  }

  lemma KeysOfStep(list: seq<Edge>, i: nat)
    requires i < |list|
    ensures KeysOf(list[..i + 1]) == KeysOf(list[..i]) + {EdgeOf(list[i])}
    ensures forall j :: 0 <= j < i ==> EdgeOf(list[j]) in KeysOf(list[..i])
  {
    assert list[..i + 1] == list[..i] + [list[i]];
    assert forall j :: 0 <= j < i ==> list[j] in list[..i];
  }

  /** The edges at a node are those that leave it and those that enter it; ids tell them apart. */
  lemma BothEndsAreIncident(edges: EdgeTable, outgoing: seq<Edge>, incoming: seq<Edge>, graphId: Uuid, id: Uuid)
    requires ListsEdges(outgoing, edges, e => Leaves(e, graphId, id, None))
    requires ListsEdges(incoming, edges, e => Enters(e, graphId, id, None))
    requires EdgesKeyed(edges)
    ensures edges - KeysOf(outgoing + incoming) == WithoutIncident(edges, graphId, id)
    ensures var list := outgoing + incoming;
            forall i, j :: 0 <= i < |list| && 0 <= j < |list| && list[i].id == list[j].id ==> list[i] == list[j]
  {
    var list := outgoing + incoming;
    forall k | k in edges ensures k in KeysOf(list) <==> Incident(edges[k], graphId, id) {
      if Leaves(edges[k], graphId, id, None) {
        assert edges[k] in outgoing;
      }
      if Enters(edges[k], graphId, id, None) {
        assert edges[k] in incoming;
      }
    }
    forall e | e in list ensures e.graphId == graphId && EdgeOf(e) in edges && edges[EdgeOf(e)] == e {
      if e in outgoing {
      } else {
        assert e in incoming;
      }
    }
  }

  // ----- label scans -----

  ghost predicate NodesOwned(nodes: NodeTable, graphId: Uuid, ks: seq<Bytes>) {
    forall i :: 0 <= i < |ks| ==> |ks[i]| >= 16 && NodeKey(graphId, ks[i][|ks[i]| - 16..]) in nodes
  }

  ghost function NodesAt(nodes: NodeTable, graphId: Uuid, ks: seq<Bytes>): (r: seq<Node>)
    requires NodesOwned(nodes, graphId, ks)
    ensures |r| == |ks| && forall i :: 0 <= i < |ks| ==> r[i] == nodes[NodeKey(graphId, ks[i][|ks[i]| - 16..])]
  {
    seq(|ks|, i requires 0 <= i < |ks| => nodes[NodeKey(graphId, ks[i][|ks[i]| - 16..])])
  }

  lemma LabelScanOwned(nodes: NodeTable, index: map<Bytes, Bytes>, graphId: Uuid, name: string)
    requires NodeFamiliesInv(nodes, index)
    ensures NodesOwned(nodes, graphId, KeysWithPrefix(index.Keys, LabelPrefix(graphId, name)))
  {
    var ks := KeysWithPrefix(index.Keys, LabelPrefix(graphId, name));
    hide SortedKeys, LabelPrefix, NodeFamiliesInv;
    forall i | 0 <= i < |ks| ensures |ks[i]| >= 16 && NodeKey(graphId, ks[i][|ks[i]| - 16..]) in nodes {
      assert ks[i] in ks;
      LabelScanHit(nodes, index, graphId, name, ks[i]);
    }
  }

  /** A key under the label's prefix is the label key, under that very prefix, of a node with the label. */
  lemma LabelScanHit(nodes: NodeTable, index: map<Bytes, Bytes>, graphId: Uuid, name: string, q: Bytes)
    requires NodeFamiliesInv(nodes, index)
    requires q in index && LabelPrefix(graphId, name) <= q
    ensures |q| >= 16 && NodeKey(graphId, q[|q| - 16..]) in nodes
    ensures var n := nodes[NodeKey(graphId, q[|q| - 16..])];
            n.graphId == graphId && HasLabelKey(n, name) && n.id == q[|q| - 16..]
            && q == LabelPrefix(graphId, name) + n.id && NodeOf(n) in nodes && nodes[NodeOf(n)] == n
  {
    var n := nodes[Owner(q)];
    assert q in NodeLabelKeys(n);
    var l :| l in n.labels && q == LabelKey(n.graphId, l, n.id);
    LabelOwner(n.graphId, l, n.id);
    LabelStarts(graphId, name, q, n.graphId, l, n.id);
    hide IndexInv, EncodeLabel;
    assert SameLabelKey(name, l);
    assert q[|q| - 16..] == n.id;
  }

  lemma LabelScanComplete(nodes: NodeTable, index: map<Bytes, Bytes>, graphId: Uuid, name: string, n: Node)
    requires NodeFamiliesInv(nodes, index)
    requires NodeOf(n) in nodes && nodes[NodeOf(n)] == n && n.graphId == graphId && HasLabelKey(n, name)
    ensures LabelKey(graphId, name, n.id) in index
  {
    hide EncodeLabel, NodeOf;
    var l :| l in n.labels && SameLabelKey(name, l);
    assert LabelKey(graphId, l, n.id) in NodeLabelKeys(nodes[NodeOf(n)]);
  }

  /** The keys of the nodes a label scan meets, in order. */
  lemma LabelScanSorted(nodes: NodeTable, index: map<Bytes, Bytes>, graphId: Uuid, name: string)
    requires NodeFamiliesInv(nodes, index)
    requires NodesOwned(nodes, graphId, KeysWithPrefix(index.Keys, LabelPrefix(graphId, name)))
    ensures StrictlySorted(NodeKeysOf(NodesAt(nodes, graphId, KeysWithPrefix(index.Keys, LabelPrefix(graphId, name)))))
  {
    hide SortedKeys, Less, NodeFamiliesInv, LabelPrefix, NodesOwned, HasLabelKey;
    var p := LabelPrefix(graphId, name);
    var ks := KeysWithPrefix(index.Keys, p);
    var list := NodesAt(nodes, graphId, ks);
    SortedKeysSorted((set k | k in index.Keys && p <= k));
    forall i, j | 0 <= i < j < |ks| ensures Less(NodeOf(list[i]), NodeOf(list[j])) {
      assert ks[i] in ks && ks[j] in ks;
      assert Less(ks[i], ks[j]);
      LabelScanHit(nodes, index, graphId, name, ks[i]);
      LabelScanHit(nodes, index, graphId, name, ks[j]);
      LessCommonHead(p, list[i].id, list[j].id);
      LessCommonHead(graphId, list[i].id, list[j].id);
    }
  }

  lemma LabelScanMembers(nodes: NodeTable, index: map<Bytes, Bytes>, graphId: Uuid, name: string, n: Node)
    requires NodeFamiliesInv(nodes, index)
    requires NodesOwned(nodes, graphId, KeysWithPrefix(index.Keys, LabelPrefix(graphId, name)))
    ensures n in NodesAt(nodes, graphId, KeysWithPrefix(index.Keys, LabelPrefix(graphId, name))) <==>
              NodeOf(n) in nodes && nodes[NodeOf(n)] == n && n.graphId == graphId && HasLabelKey(n, name)
  {
    hide SortedKeys, NodeFamiliesInv, NodesOwned, HasLabelKey, NodeKey;
    var ks := KeysWithPrefix(index.Keys, LabelPrefix(graphId, name));
    var list := NodesAt(nodes, graphId, ks);
    if n in list {
      var i :| 0 <= i < |ks| && list[i] == n;
      assert ks[i] in ks;
      hide LabelPrefix;
      LabelScanHit(nodes, index, graphId, name, ks[i]);
    } else if NodeOf(n) in nodes && nodes[NodeOf(n)] == n && n.graphId == graphId && HasLabelKey(n, name) {
      LabelScanComplete(nodes, index, graphId, name, n);
      LabelScanMeets(nodes, index, graphId, name, n);
    }
  }

  lemma LabelScanMeets(nodes: NodeTable, index: map<Bytes, Bytes>, graphId: Uuid, name: string, n: Node)
    requires NodesOwned(nodes, graphId, KeysWithPrefix(index.Keys, LabelPrefix(graphId, name)))
    requires LabelKey(graphId, name, n.id) in index
    requires NodeOf(n) in nodes && nodes[NodeOf(n)] == n && n.graphId == graphId
    ensures n in NodesAt(nodes, graphId, KeysWithPrefix(index.Keys, LabelPrefix(graphId, name)))
  {
    hide SortedKeys, NodesOwned, NodeKey;
    var ks := KeysWithPrefix(index.Keys, LabelPrefix(graphId, name));
    var q := LabelKey(graphId, name, n.id);
    assert LabelPrefix(graphId, name) <= q && q[|q| - 16..] == n.id;
    hide LabelPrefix, LabelKey;
    assert q in ks;
    var i :| 0 <= i < |ks| && ks[i] == q;
    assert NodesAt(nodes, graphId, ks)[i] == n;
  }

  /** A label scan meets exactly the graph's nodes with the label, in the order of the node table. */
  lemma LabelScanExact(nodes: NodeTable, index: map<Bytes, Bytes>, graphId: Uuid, name: string)
    requires NodeFamiliesInv(nodes, index)
    requires NodesOwned(nodes, graphId, KeysWithPrefix(index.Keys, LabelPrefix(graphId, name)))
    ensures NodesAt(nodes, graphId, KeysWithPrefix(index.Keys, LabelPrefix(graphId, name))) ==
              WithLabel(NodesOf(nodes, graphId), name)
  {
    LabelScanSorted(nodes, index, graphId, name);
    NodesOfExactly(nodes, graphId);
    WithLabelExactly(NodesOf(nodes, graphId), name);
    var a := NodesAt(nodes, graphId, KeysWithPrefix(index.Keys, LabelPrefix(graphId, name)));
    var b := WithLabel(NodesOf(nodes, graphId), name);
    hide NodeFamiliesInv, WithLabel, NodesOf, NodesAt, KeysWithPrefix, HasLabelKey, StrictlySorted, NodeKeysOf, NodeOf;
    forall n ensures n in a <==> n in b {
      LabelScanMembers(nodes, index, graphId, name, n);
    }
    SameNodesSameOrder(a, b, nodes);
  }

  lemma SameNodesSameOrder(a: seq<Node>, b: seq<Node>, nodes: NodeTable)
    requires StrictlySorted(NodeKeysOf(a)) && StrictlySorted(NodeKeysOf(b))
    requires forall n :: n in a <==> n in b
    requires forall n :: n in b ==> NodeOf(n) in nodes && nodes[NodeOf(n)] == n
    ensures a == b
  {
    hide StrictlySorted, NodeOf;
    forall k ensures k in NodeKeysOf(a) <==> k in NodeKeysOf(b) {
      if k in NodeKeysOf(a) {
        var i :| 0 <= i < |a| && NodeKeysOf(a)[i] == k;
        assert a[i] in b;
        var j :| 0 <= j < |b| && b[j] == a[i];
        assert NodeKeysOf(b)[j] == k;
      }
      if k in NodeKeysOf(b) {
        var i :| 0 <= i < |b| && NodeKeysOf(b)[i] == k;
        assert b[i] in a;
        var j :| 0 <= j < |a| && a[j] == b[i];
        assert NodeKeysOf(a)[j] == k;
      }
    }
    SortedUnique(NodeKeysOf(a), NodeKeysOf(b));
    assert |a| == |NodeKeysOf(a)| == |b|;
    forall i | 0 <= i < |a| ensures a[i] == b[i] {
      assert NodeOf(a[i]) == NodeKeysOf(a)[i] == NodeKeysOf(b)[i] == NodeOf(b[i]);
      assert a[i] in b && b[i] in b;
    }
  }
}
