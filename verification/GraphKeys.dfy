/** Nodes, edges, and the keys under which they and their indexes are stored. */
module GraphKeys {
  import opened Bytes
  import opened OrderedStore
  import opened Values

  datatype Node = Node(id: Uuid, graphId: Uuid, labels: set<string>, properties: Props)

  datatype Edge = Edge(id: Uuid, graphId: Uuid, source: Uuid, target: Uuid, edgeLabel: string, properties: Props)

  const LABEL_MAX: nat := 0xFFFF

  function LabelBytes(name: string): (r: Bytes)
    ensures |r| <= LABEL_MAX
  {
    var bytes := Utf8(name);
    if |bytes| <= LABEL_MAX then bytes else bytes[..LABEL_MAX]
  }

  /** Two length bytes, then at most 65535 bytes of the label. */
  function EncodeLabel(name: string): Bytes {
    Radix8();
    BigEndian(|LabelBytes(name)|, 2) + LabelBytes(name)
  }

  function NodeKey(graphId: Uuid, id: Uuid): (k: Bytes)
    ensures |k| == 32 && k[..16] == graphId && k[16..] == id
  {
    graphId + id
  }

  function EdgeKey(graphId: Uuid, id: Uuid): (k: Bytes)
    ensures |k| == 32 && k[..16] == graphId && k[16..] == id
  {
    graphId + id
  }

  /** Adjacency: graph, endpoint, name, edge; outgoing keys name the source and incoming keys the target. */
  function AdjacencyKey(graphId: Uuid, endpoint: Uuid, name: string, edgeId: Uuid): Bytes {
    AdjacencyPrefix(graphId, endpoint) + EncodeLabel(name) + edgeId
  }

  function AdjacencyPrefix(graphId: Uuid, endpoint: Uuid): (p: Bytes)
    ensures |p| == 32
  {
    graphId + endpoint
  }

  function AdjacencyLabelPrefix(graphId: Uuid, endpoint: Uuid, name: string): Bytes {
    AdjacencyPrefix(graphId, endpoint) + EncodeLabel(name)
  }

  /** Label index: graph, name, node or edge. */
  function LabelKey(graphId: Uuid, name: string, id: Uuid): Bytes {
    LabelPrefix(graphId, name) + id
  }

  function LabelPrefix(graphId: Uuid, name: string): Bytes {
    graphId + EncodeLabel(name)
  }

  /** The primary key a secondary key belongs to: its graph and its last sixteen bytes. */
  function Owner(k: Bytes): Bytes
    requires |k| >= 32
  {
    k[..16] + k[|k| - 16..]
  }

  lemma AdjacencyOwner(graphId: Uuid, endpoint: Uuid, name: string, edgeId: Uuid)
    ensures |AdjacencyKey(graphId, endpoint, name, edgeId)| >= 48
    ensures Owner(AdjacencyKey(graphId, endpoint, name, edgeId)) == EdgeKey(graphId, edgeId)
  {
    var k := AdjacencyKey(graphId, endpoint, name, edgeId);
    assert k[..16] == graphId && k[|k| - 16..] == edgeId;
  }

  lemma LabelOwner(graphId: Uuid, name: string, id: Uuid)
    ensures |LabelKey(graphId, name, id)| >= 32
    ensures Owner(LabelKey(graphId, name, id)) == NodeKey(graphId, id) == EdgeKey(graphId, id)
  {
    var k := LabelKey(graphId, name, id);
    assert k[..16] == graphId && k[|k| - 16..] == id;
  }

  // ----- the node table -----

  function NodeOf(n: Node): Bytes {
    NodeKey(n.graphId, n.id)
  }

  type NodeTable = map<Bytes, Node>

  ghost predicate NodesKeyed(nodes: NodeTable) {
    forall k :: k in nodes ==> k == NodeOf(nodes[k])
  }

  lemma NodeOfInjective(a: Node, b: Node)
    requires NodeOf(a) == NodeOf(b)
    ensures a.graphId == b.graphId && a.id == b.id
  {
    assert NodeOf(a)[..16] == a.graphId && NodeOf(b)[..16] == b.graphId;
    assert NodeOf(a)[16..] == a.id && NodeOf(b)[16..] == b.id;
  }

  /** The nodes of a graph in key order. */
  function NodesOf(nodes: NodeTable, graphId: Uuid): (r: seq<Node>)
    ensures var ks := KeysWithPrefix(nodes.Keys, graphId);
            |r| == |ks| && forall i :: 0 <= i < |ks| ==> ks[i] in nodes && r[i] == nodes[ks[i]]
  {
    var ks := KeysWithPrefix(nodes.Keys, graphId);
    assert forall i :: 0 <= i < |ks| ==> ks[i] in ks;
    seq(|ks|, i requires 0 <= i < |ks| => nodes[ks[i]])
  }

  // ----- labels -----

  /** The labels cannot be told apart in a key. */
  predicate SameLabelKey(a: string, b: string) {
    EncodeLabel(a) == EncodeLabel(b)
  }

  lemma LabelLengthInjective(a: string, b: string, x: Bytes, y: Bytes)
    requires EncodeLabel(a) + x == EncodeLabel(b) + y
    ensures LabelBytes(a) == LabelBytes(b) && x == y
  {
    hide LabelBytes, BigEndian, Radix;
    Radix8();
    var p, q := LabelBytes(a), LabelBytes(b);
    var m, n := BigEndian(|p|, 2), BigEndian(|q|, 2);
    assert m == (EncodeLabel(a) + x)[..2] && n == (EncodeLabel(b) + y)[..2];
    BigEndianInjective(|p|, |q|, 2);
    var s := EncodeLabel(a) + x;
    assert p == s[2..2 + |p|] && q == (EncodeLabel(b) + y)[2..2 + |p|];
    assert x == s[2 + |p|..] && y == (EncodeLabel(b) + y)[2 + |p|..];
  }

  /** The length prefix delimits a label: one label's encoding starts another one's key only if they are the same. */
  lemma LabelDelimits(a: string, b: string, rest: Bytes)
    ensures EncodeLabel(a) <= EncodeLabel(b) + rest <==> SameLabelKey(a, b)
  {
    if EncodeLabel(a) <= EncodeLabel(b) + rest {
      var y := (EncodeLabel(b) + rest)[|EncodeLabel(a)|..];
      assert EncodeLabel(a) + y == EncodeLabel(b) + rest;
      LabelLengthInjective(a, b, y, rest);
    }
  }

  /** Labels of at most 65535 bytes are told apart. */
  lemma ShortLabelsDistinct(a: string, b: string)
    requires |Utf8(a)| <= LABEL_MAX && |Utf8(b)| <= LABEL_MAX
    ensures SameLabelKey(a, b) <==> a == b
  {
    if SameLabelKey(a, b) {
      LabelLengthInjective(a, b, [], []);
      Utf8Injective(a, b);
    }
  }

  /** Two labels share their keys if and only if they agree on the 65535 bytes that are kept. */
  lemma LabelsCollideIff(a: string, b: string)
    ensures SameLabelKey(a, b) <==> LabelBytes(a) == LabelBytes(b)
  {
    if SameLabelKey(a, b) {
      LabelLengthInjective(a, b, [], []);
    }
  }

  lemma AdjacencyStarts(graphId: Uuid, endpoint: Uuid, k: Bytes, source: Uuid, name: string, edgeId: Uuid, g: Uuid)
    requires k == AdjacencyKey(g, source, name, edgeId)
    ensures AdjacencyPrefix(graphId, endpoint) <= k <==> g == graphId && source == endpoint
  {
    assert k[..32] == AdjacencyPrefix(g, source);
    assert AdjacencyPrefix(g, source)[..16] == g && AdjacencyPrefix(g, source)[16..] == source;
    assert AdjacencyPrefix(graphId, endpoint)[..16] == graphId && AdjacencyPrefix(graphId, endpoint)[16..] == endpoint;
  }

  lemma AdjacencyLabelStarts(graphId: Uuid, endpoint: Uuid, wanted: string, k: Bytes, source: Uuid, name: string,
                             edgeId: Uuid, g: Uuid)
    requires k == AdjacencyKey(g, source, name, edgeId)
    ensures AdjacencyLabelPrefix(graphId, endpoint, wanted) <= k <==>
              g == graphId && source == endpoint && SameLabelKey(wanted, name)
  {
    hide EncodeLabel, SameLabelKey;
    AdjacencyStarts(graphId, endpoint, k, source, name, edgeId, g);
    LabelDelimits(wanted, name, edgeId);
    var p := AdjacencyPrefix(graphId, endpoint);
    if p + EncodeLabel(wanted) <= k {
      assert p == (p + EncodeLabel(wanted))[..|p|] == k[..|p|];
    }
    if p <= k {
      assert k == p + (EncodeLabel(name) + edgeId);
      PrefixCancels(p, EncodeLabel(wanted), EncodeLabel(name) + edgeId);
    }
  }

  lemma PrefixCancels(p: Bytes, a: Bytes, b: Bytes)
    ensures p + a <= p + b <==> a <= b
  {
    if p + a <= p + b {
      assert (p + b)[|p|..] == b && (p + b)[..|p + a|] == p + a;
      assert b[..|a|] == (p + b)[|p|..|p| + |a|] == (p + a)[|p|..] == a;
    }
    if a <= b {
      assert (p + b)[..|p + a|] == p + b[..|a|];
    }
  }

  lemma LabelStarts(graphId: Uuid, wanted: string, k: Bytes, g: Uuid, name: string, id: Uuid)
    requires k == LabelKey(g, name, id)
    ensures LabelPrefix(graphId, wanted) <= k <==> g == graphId && SameLabelKey(wanted, name)
  {
    hide EncodeLabel, SameLabelKey;
    LabelDelimits(wanted, name, id);
    assert k == g + (EncodeLabel(name) + id);
    assert k[..16] == g;
    if LabelPrefix(graphId, wanted) <= k {
      assert LabelPrefix(graphId, wanted)[..16] == graphId == k[..16];
    }
    if g == graphId {
      PrefixCancels(g, EncodeLabel(wanted), EncodeLabel(name) + id);
    }
  }
}
