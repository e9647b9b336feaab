/** Which nodes a scan lists, and what their rows show. */
module ScanLaws {
  import opened Bytes
  import opened OrderedStore
  import opened Wrappers
  import opened Values
  import opened Syntax
  import opened Expressions
  import opened GraphKeys
  import opened GraphStore
  import opened Plans
  import opened PatternRows

  /**
   A scan lists, in key order, the stored nodes of the graph that have every
   label; one label alone is looked up by its key.
   */
  lemma ScanMeaning(nodes: NodeTable, graphId: Uuid, labels: seq<string>)
    requires NodesKeyed(nodes)
    ensures forall n :: n in ScannedNodes(nodes, graphId, labels) <==>
              && NodeOf(n) in nodes && nodes[NodeOf(n)] == n && n.graphId == graphId
              && if |labels| == 1 then exists l :: l in n.labels && LabelBytes(l) == LabelBytes(labels[0])
                 else forall l :: l in labels ==> l in n.labels
    ensures StrictlySorted(NodeKeysOf(ScannedNodes(nodes, graphId, labels)))
  {
    var all := NodesOf(nodes, graphId);
    NodesOfExactly(nodes, graphId);
    forall a, b ensures SameLabelKey(a, b) <==> LabelBytes(a) == LabelBytes(b) {
      LabelsCollideIff(a, b);
    }
    hide NodesOf, SameLabelKey, StrictlySorted, NodeOf, LabelBytes, WithLabel, Select, NodesKeyed;
    if labels != [] {
      var list := WithLabel(all, labels[0]);
      WithLabelExactly(all, labels[0]);
      assert labels[0] in labels;
      if |labels| > 1 {
        SelectExactly(list, (n: Node) => HasAllLabels(n, labels));
      }
    }
  }

  /** Within 65535 bytes a single label is no exception. */
  lemma ShortLabelScan(nodes: NodeTable, graphId: Uuid, labels: seq<string>)
    requires NodesKeyed(nodes)
    requires forall l :: l in labels ==> |Utf8(l)| <= 65535
    requires forall k, l :: k in nodes && l in nodes[k].labels ==> |Utf8(l)| <= 65535
    ensures forall n :: n in ScannedNodes(nodes, graphId, labels) <==>
              && NodeOf(n) in nodes && nodes[NodeOf(n)] == n && n.graphId == graphId
              && forall l :: l in labels ==> l in n.labels
  {
    ScanMeaning(nodes, graphId, labels);
    hide *;
    forall n ensures n in ScannedNodes(nodes, graphId, labels) <==>
                       && NodeOf(n) in nodes && nodes[NodeOf(n)] == n && n.graphId == graphId
                       && forall l :: l in labels ==> l in n.labels
    {
      if NodeOf(n) in nodes && nodes[NodeOf(n)] == n && |labels| == 1 {
        assert labels[0] in labels;
        ShortLabel(n.labels, labels[0]);
        OneLabel(labels, n.labels);
      }
    }
  }

  lemma OneLabel(labels: seq<string>, carried: set<string>)
    requires |labels| == 1
    ensures (forall l :: l in labels ==> l in carried) <==> labels[0] in carried
  {
    assert labels[0] in labels;
  }

  lemma ShortLabel(labels: set<string>, name: string)
    requires |Utf8(name)| <= 65535 && forall l :: l in labels ==> |Utf8(l)| <= 65535
    ensures (exists l :: l in labels && LabelBytes(l) == LabelBytes(name)) <==> name in labels
  {
    forall l | l in labels ensures LabelBytes(l) == LabelBytes(name) <==> l == name {
      LabelsCollideIff(l, name);
      ShortLabelsDistinct(l, name);
    }
    hide LabelBytes, Utf8;
  }

  /** A value that lists each of the labels once, and nothing else. */
  ghost predicate ListsLabels(x: Value, labels: set<string>) {
    && x.List? && |x.items| == |labels|
    && (forall l :: l in labels <==> Str(l) in x.items)
  }

  lemma LabelColumn(n: Node)
    ensures ListsLabels(List(Strings(LabelList(n))), n.labels)
  {
    var list := LabelList(n);
    var items := Strings(list);
    hide SortedStrings;
    forall l ensures l in n.labels <==> Str(l) in items {
      if l in n.labels {
        var i :| 0 <= i < |list| && list[i] == l;
        assert items[i] == Str(l);
      }
    }
  }

  /**
   What the row of a scanned node shows under each name: its id, its labels,
   under the variable the node itself, and its properties, null where a node
   lacks one that another node of the scan has.
   */
  lemma RowMeaning(n: Node, v: string, keys: seq<string>, lib: Library)
    requires PlainVariable(v) && PlainKeys(keys, v)
    ensures var r := NodeRow(n, v, keys, lib);
            && Get(r, "__node_id") == Some(Str(lib.text(n.id)))
            && Get(r, "__labels").Some? && ListsLabels(Get(r, "__labels").value, n.labels)
            && Get(r, v).Some? && Get(r, v).value.NodeVal? && Get(r, v).value.nodeId == n.id
            && Get(r, v).value.nodeProps == n.properties
            && (forall l :: l in n.labels <==> l in Get(r, v).value.labels)
    ensures forall k :: k in keys ==>
              && Get(NodeRow(n, v, keys, lib), k) == Some(if k in n.properties then n.properties[k] else Null)
              && Get(NodeRow(n, v, keys, lib), v + "." + k) == Some(if k in n.properties then n.properties[k] else Null)
  {
    hide NodeRow, Get, SortedStrings, ListsLabels, RowFor, ColumnsFor, PlainKeys;
    GetVariable(n, v, keys, lib);
    InternalColumns(n, v, keys, lib);
    LabelColumn(n);
    forall k | k in keys
      ensures Get(NodeRow(n, v, keys, lib), k) == Some(if k in n.properties then n.properties[k] else Null)
      ensures Get(NodeRow(n, v, keys, lib), v + "." + k) == Some(if k in n.properties then n.properties[k] else Null)
    {
      KeyColumns(n, v, keys, lib, k);
    }
  }

  lemma KeyColumns(n: Node, v: string, keys: seq<string>, lib: Library, k: string)
    requires PlainKeys(keys, v) && k in keys
    ensures Get(NodeRow(n, v, keys, lib), k) == Some(if k in n.properties then n.properties[k] else Null)
    ensures Get(NodeRow(n, v, keys, lib), v + "." + k) == Some(if k in n.properties then n.properties[k] else Null)
  {
    hide NodeRow, Get, SortedStrings;
    GetBare(n, v, keys, lib, k);
    GetDotted(n, v, keys, lib, k);
  }

  lemma InternalColumns(n: Node, v: string, keys: seq<string>, lib: Library)
    ensures var r := NodeRow(n, v, keys, lib);
            Get(r, "__node_id") == Some(Str(lib.text(n.id))) && Get(r, "__labels") == Some(List(Strings(LabelList(n))))
  {
    var columns, row := ColumnsFor(Some(v), keys), RowFor(n, Some(v), keys, lib);
    assert columns[0] == "__node_id" && columns[1] == "__labels";
    assert row[0] == Str(lib.text(n.id)) && row[1] == List(Strings(LabelList(n)));
    assert "__node_id" != "__labels" by {
      assert "__node_id"[2] != "__labels"[2];
    }
    hide ColumnsFor, RowFor, LabelList, Strings;
    assert Position(columns, "__node_id") == Some(0);
    assert Position(columns, "__labels") == Some(1);
  }
}
