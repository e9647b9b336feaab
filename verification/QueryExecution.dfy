/** The executor's reading loops over the stored graph: scan, filter and index scan. */
module QueryExecution {
  import opened Bytes
  import opened OrderedStore
  import opened Wrappers
  import opened Values
  import opened ValueCodec
  import opened Syntax
  import opened Expressions
  import opened GraphKeys
  import opened GraphStore
  import opened PropertyIndex
  import opened StorageEngines
  import opened IndexScans
  import opened Plans

  ghost function DatabaseOf(storage: StorageEngine, graphId: Uuid): Database
    reads storage, storage.index
  {
    Database(storage.nodes, storage.index.family, graphId, storage.index.env)
  }

  method CollectKeys(list: seq<Node>) returns (keys: set<string>)
    ensures keys == KeysOfNodes(list)
  {
    keys := {};
    var i := 0;
    while i < |list|
      invariant 0 <= i <= |list| && keys == KeysOfNodes(list[..i])
    {
      assert list[..i + 1][..i] == list[..i];
      keys := keys + list[i].properties.Keys;
      i := i + 1;
    }
    assert list[..i] == list;
  }

  /** One row per node under the collected property columns. */
  method BuildRows(list: seq<Node>, variable: Option<string>, lib: Library, order: KeyOrder) returns (rs: ResultSet)
    ensures rs == RowsFor(list, variable, order(KeysOfNodes(list)), lib)
  {
    hide KeysOfNodes, RowFor, ColumnsFor;
    var collected := CollectKeys(list);
    var keys := order(collected);
    var rows: seq<seq<Value>> := [];
    var i := 0;
    while i < |list|
      invariant 0 <= i <= |list| && rows == RowsFor(list, variable, keys, lib).rows[..i]
    {
      rows := rows + [RowFor(list[i], variable, keys, lib)];
      i := i + 1;
    }
    return ResultSet(ColumnsFor(variable, keys), rows);
  }

  method RetainLabelled(list: seq<Node>, labels: seq<string>) returns (kept: seq<Node>)
    ensures kept == Select(list, (n: Node) => HasAllLabels(n, labels))
  {
    hide HasAllLabels;
    kept := [];
    var i := 0;
    assert list[0..] == list;
    while i < |list|
      invariant 0 <= i <= |list|
      invariant kept + Select(list[i..], (n: Node) => HasAllLabels(n, labels)) == Select(list, (n: Node) => HasAllLabels(n, labels))
    {
      assert list[i..][0] == list[i] && list[i..][1..] == list[i + 1..];
      if HasAllLabels(list[i], labels) {
        kept := kept + [list[i]];
      }
      i := i + 1;
    }
  }

  method ExecScan(storage: StorageEngine, graphId: Uuid, labels: seq<string>, variable: Option<string>, lib: Library,
                  order: KeyOrder) returns (rs: ResultSet)
    requires storage.GraphInv()
    ensures rs == RunScan(DatabaseOf(storage, graphId), labels, variable, lib, order)
  {
    hide EdgeFamiliesInv, NodeFamiliesInv, RowsFor, Select, NodesOf, WithLabel, KeysOfNodes;
    var list: seq<Node>;
    if labels == [] {
      list := storage.ScanNodes(graphId);
    } else {
      var scanned := storage.ScanNodesByLabel(graphId, labels[0]);
      list := scanned.value;
      if |labels| > 1 {
        list := RetainLabelled(list, labels);
      }
    }
    rs := BuildRows(list, variable, lib, order);
  }

  lemma {:induction false} FilterFailsFrom(columns: seq<string>, rows: seq<seq<Value>>, i: nat, e: Expression, rt: Runtime)
    requires forall i :: 0 <= i < |rows| ==> |rows[i]| == |columns|
    requires i <= |rows| && FilterRows(columns, rows[..i], e, rt).Failure?
    ensures FilterRows(columns, rows, e, rt) == FilterRows(columns, rows[..i], e, rt)
    decreases |rows| - i
  {
    hide Evaluate;
    if i == |rows| {
      assert rows[..i] == rows;
    } else {
      assert rows[..i + 1][..i] == rows[..i];
      FilterFailsFrom(columns, rows, i + 1, e, rt);
    }
  }

  /** Keeps the rows on which the predicate is true; the first error is returned. */
  method ExecFilter(rs: ResultSet, e: Expression, rt: Runtime) returns (r: QueryResult)
    requires RowsOk(rs)
    ensures r == RunFilter(rs, e, rt)
  {
    hide Evaluate;
    var rows: seq<seq<Value>> := [];
    var i := 0;
    while i < |rs.rows|
      invariant 0 <= i <= |rs.rows| && FilterRows(rs.columns, rs.rows[..i], e, rt) == Success(rows)
    {
      assert rs.rows[..i + 1][..i] == rs.rows[..i];
      var v := Evaluate(e, RowOf(rs, i), rt);
      if v.Failure? {
        FilterFailsFrom(rs.columns, rs.rows, i + 1, e, rt);
        return Failure(Evaluation(v.error));
      }
      if v.value == Bool(true) {
        rows := rows + [rs.rows[i]];
      }
      i := i + 1;
    }
    assert rs.rows[..i] == rs.rows;
    return Success(ResultSet(rs.columns, rows));
  }

  lemma LoadStep(nodes: NodeTable, graphId: Uuid, ids: seq<Uuid>, labels: seq<string>)
    requires ids != []
    ensures var k := NodeKey(graphId, ids[0]);
            LoadAll(nodes, graphId, ids, labels) ==
              (if k in nodes && HasAllLabels(nodes[k], labels) then [nodes[k]] else [])
              + LoadAll(nodes, graphId, ids[1..], labels)
  {
    hide NodeKey, HasAllLabels;
  }

  lemma LoadNothing(nodes: NodeTable, graphId: Uuid, labels: seq<string>)
    ensures LoadAll(nodes, graphId, [], labels) == []
  {
  }

  /** Loads the nodes the ids name, skipping missing ones and those without all labels. */
  method LoadNodes(storage: StorageEngine, graphId: Uuid, ids: seq<Uuid>, labels: seq<string>) returns (list: seq<Node>)
    ensures list == LoadAll(storage.nodes, graphId, ids, labels)
  {
    hide NodeKey, HasAllLabels, LoadAll;
    list := [];
    var i := 0;
    assert ids[0..] == ids;
    while i < |ids|
      invariant 0 <= i <= |ids|
      invariant list + LoadAll(storage.nodes, graphId, ids[i..], labels) == LoadAll(storage.nodes, graphId, ids, labels)
    {
      assert ids[i..][0] == ids[i] && ids[i..][1..] == ids[i + 1..];
      LoadStep(storage.nodes, graphId, ids[i..], labels);
      var got := storage.GetNode(graphId, ids[i]);
      if got.Success? && HasAllLabels(got.value, labels) {
        list := list + [got.value];
      }
      i := i + 1;
    }
    assert ids[i..] == [];
    LoadNothing(storage.nodes, graphId, labels);
  }

  /** Finds the index by name, looks its values up, and filters what is left of the predicate. */
  method ExecIndexScan(storage: StorageEngine, graphId: Uuid, indexName: string, labels: seq<string>,
                       variable: Option<string>,
                       lookupValues: seq<Expression>, remaining: Option<Expression>, lib: Library, order: KeyOrder)
    returns (r: QueryResult)
    requires storage.GraphInv() && storage.index.Valid()
    ensures r == RunIndexScan(DatabaseOf(storage, graphId), indexName, labels, variable, lookupValues, remaining, lib, order)
  {
    hide EdgeFamiliesInv, NodeFamiliesInv, FamilyOk, EnvOk, DefsAt, RowsFor, LoadAll, EvaluateAll, RunFilter,
      KeysOfNodes, SortedKeys,
      EncodeValues;
    var defs := storage.index.ListIndexes(graphId);
    var def := FindIndex(defs, indexName);
    if def.None? {
      return Failure(IndexNotFound);
    }
    var values := EvaluateAll(lookupValues, EMPTY_ROW, lib.rt);
    if values.Failure? {
      return Failure(Evaluation(values.error));
    }
    var ids := storage.index.Lookup(def.value, values.value);
    assert ids == IdsIn(LookupKeys(storage.index.family, def.value, values.value, storage.index.env));
    var list := LoadNodes(storage, graphId, ids, labels);
    var rs := BuildRows(list, variable, lib, order);
    if remaining.Some? {
      r := ExecFilter(rs, remaining.value, lib.rt);
    } else {
      r := Success(rs);
    }
  }
}
