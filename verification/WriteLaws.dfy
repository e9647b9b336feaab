/** What SET and DELETE write, read back record by record from the rows that name them. */
module WriteLaws {
  import opened Bytes
  import opened Wrappers
  import opened Values
  import opened Syntax
  import opened Expressions
  import opened GraphKeys
  import opened GraphStore
  import opened ExecutionEngines

  // ----- what a row names -----

  /** The row shows the value: under the target's name, or anywhere where there is no target. */
  ghost predicate Shows(rs: ResultSet, row: nat, target: Option<string>, v: Value)
    requires RowsOk(rs) && row < |rs.rows|
  {
    if target.Some? then Get(RowOf(rs, row), target.value) == Some(v) else v in rs.rows[row]
  }

  ghost predicate ShowsNode(rs: ResultSet, row: nat, target: Option<string>, graphId: Uuid, k: Bytes)
    requires RowsOk(rs) && row < |rs.rows|
  {
    exists v :: Shows(rs, row, target, v) && v.NodeVal? && NodeKey(graphId, v.nodeId) == k
  }

  ghost predicate ShowsEdge(rs: ResultSet, row: nat, target: Option<string>, graphId: Uuid, k: Bytes)
    requires RowsOk(rs) && row < |rs.rows|
  {
    exists v :: Shows(rs, row, target, v) && v.EdgeVal? && EdgeKey(graphId, v.edgeId) == k
  }

  // ----- what one write leaves -----

  /** The properties are as before but for the one, which has the value. */
  ghost predicate SetTo(was: Props, now: Props, property: string, v: Value) {
    && property in now && now[property] == v
    && forall p :: p != property ==> (p in was <==> p in now) && (p in was ==> now[p] == was[p])
  }

  ghost predicate NodeSetTo(was: Node, now: Node, property: string, v: Value) {
    now.id == was.id && now.graphId == was.graphId && now.labels == was.labels && SetTo(was.properties, now.properties, property, v)
  }

  ghost predicate EdgeSetTo(was: Edge, now: Edge, property: string, v: Value) {
    && now.id == was.id && now.graphId == was.graphId && now.edgeLabel == was.edgeLabel
    && now.source == was.source && now.target == was.target && SetTo(was.properties, now.properties, property, v)
  }

  lemma {:induction false} UnnamedNode(n: Node, list: seq<Assignment>, graphId: Uuid, k: Bytes, property: string)
    requires forall i :: 0 <= i < |list| ==> !NamesNode(list[i], graphId, k)
    ensures NodeAfter(n, list, graphId, k, property) == n
  {
    hide NamesNode, SetNode;
    if list != [] {
      UnnamedNode(n, list[..|list| - 1], graphId, k, property);
    }
  }

  lemma {:induction false} LastNamedNode(n: Node, list: seq<Assignment>, graphId: Uuid, k: Bytes, property: string, i: nat)
    requires i < |list| && NamesNode(list[i], graphId, k)
    requires forall j :: i < j < |list| ==> !NamesNode(list[j], graphId, k)
    ensures NodeSetTo(n, NodeAfter(n, list, graphId, k, property), property, list[i].value)
  {
    hide NamesNode;
    var m := |list| - 1;
    if i < m {
      LastNamedNode(n, list[..m], graphId, k, property, i);
    }
  }

  lemma {:induction false} UnnamedEdge(e: Edge, list: seq<Assignment>, graphId: Uuid, k: Bytes, property: string)
    requires forall i :: 0 <= i < |list| ==> !NamesEdge(list[i], graphId, k)
    ensures EdgeAfter(e, list, graphId, k, property) == e
  {
    hide NamesEdge, SetEdge;
    if list != [] {
      UnnamedEdge(e, list[..|list| - 1], graphId, k, property);
    }
  }

  lemma {:induction false} LastNamedEdge(e: Edge, list: seq<Assignment>, graphId: Uuid, k: Bytes, property: string, i: nat)
    requires i < |list| && NamesEdge(list[i], graphId, k)
    requires forall j :: i < j < |list| ==> !NamesEdge(list[j], graphId, k)
    ensures EdgeSetTo(e, EdgeAfter(e, list, graphId, k, property), property, list[i].value)
  {
    hide NamesEdge;
    var m := |list| - 1;
    if i < m {
      LastNamedEdge(e, list[..m], graphId, k, property, i);
    }
  }

  // ----- the assignments of the rows -----

  lemma NamedShown(rs: ResultSet, row: nat, target: Option<string>, v: Value)
    requires RowsOk(rs) && row < |rs.rows|
    ensures v in Named(RowOf(rs, row), target) <==> Shows(rs, row, target, v)
  {
    hide Position;
  }

  /** Each assignment is of a value its row shows, by the value the expression has there; rows come in order. */
  ghost predicate OfRows(rs: ResultSet, n: nat, target: Option<string>, e: Expression, rt: Runtime, list: seq<Assignment>,
                         rows: seq<nat>)
    requires RowsOk(rs) && n <= |rs.rows|
  {
    && |rows| == |list|
    && (forall i :: 0 <= i < |rows| ==> rows[i] < n && Shows(rs, rows[i], target, list[i].entity)
                                        && Evaluate(e, RowOf(rs, rows[i]), rt) == Success(list[i].value))
    && (forall i, j :: 0 <= i < j < |rows| ==> rows[i] <= rows[j])
  }

  /** Every value shown by one of the first `n` rows is assigned to from that row. */
  ghost predicate AllRows(rs: ResultSet, n: nat, target: Option<string>, list: seq<Assignment>, rows: seq<nat>)
    requires RowsOk(rs) && n <= |rs.rows|
  {
    && |rows| == |list|
    && forall r, v :: 0 <= r < n && Shows(rs, r, target, v) ==> exists i :: 0 <= i < |rows| && rows[i] == r && list[i].entity == v
  }

  ghost predicate FromRows(rs: ResultSet, n: nat, target: Option<string>, e: Expression, rt: Runtime, list: seq<Assignment>,
                           rows: seq<nat>)
    requires RowsOk(rs) && n <= |rs.rows|
  {
    OfRows(rs, n, target, e, rt, list, rows) && AllRows(rs, n, target, list, rows)
  }

  lemma {:induction false} OfRowsStep(rs: ResultSet, n: nat, target: Option<string>, e: Expression, rt: Runtime,
                                      list: seq<Assignment>, rows: seq<nat>, more: seq<Assignment>, same: seq<nat>)
    requires RowsOk(rs) && n < |rs.rows| && OfRows(rs, n, target, e, rt, list, rows)
    requires |same| == |more| && forall i :: 0 <= i < |same| ==> same[i] == n
    requires forall i :: 0 <= i < |more| ==>
               Shows(rs, n, target, more[i].entity) && Evaluate(e, RowOf(rs, n), rt) == Success(more[i].value)
    ensures OfRows(rs, n + 1, target, e, rt, list + more, rows + same)
  {
    hide Evaluate, Shows;
  }

  lemma {:induction false} AllRowsStep(rs: ResultSet, n: nat, target: Option<string>, list: seq<Assignment>, rows: seq<nat>,
                                       more: seq<Assignment>, same: seq<nat>)
    requires RowsOk(rs) && n < |rs.rows| && AllRows(rs, n, target, list, rows)
    requires |same| == |more| && forall i :: 0 <= i < |same| ==> same[i] == n
    requires forall v :: Shows(rs, n, target, v) ==> exists i :: 0 <= i < |more| && more[i].entity == v
    ensures AllRows(rs, n + 1, target, list + more, rows + same)
  {
    hide Shows;
    var list', rows' := list + more, rows + same;
    forall r, v | 0 <= r < n + 1 && Shows(rs, r, target, v)
      ensures exists i :: 0 <= i < |rows'| && rows'[i] == r && list'[i].entity == v
    {
      if r < n {
        var i :| 0 <= i < |rows| && rows[i] == r && list[i].entity == v;
        assert rows'[i] == r && list'[i].entity == v;
      } else {
        var j :| 0 <= j < |more| && more[j].entity == v;
        assert rows'[|rows| + j] == n && list'[|rows| + j].entity == v;
      }
    }
  }

  lemma {:induction false} RowAssigns(rs: ResultSet, n: nat, target: Option<string>, x: Value)
    requires RowsOk(rs) && n < |rs.rows|
    ensures var more := Assign(Named(RowOf(rs, n), target), x);
            && (forall i :: 0 <= i < |more| ==> Shows(rs, n, target, more[i].entity) && more[i].value == x)
            && (forall v :: Shows(rs, n, target, v) ==> exists i :: 0 <= i < |more| && more[i].entity == v)
  {
    hide Named, Shows;
    var named := Named(RowOf(rs, n), target);
    forall i | 0 <= i < |named| ensures Shows(rs, n, target, named[i]) {
      NamedShown(rs, n, target, named[i]);
    }
    forall v | Shows(rs, n, target, v) ensures exists i :: 0 <= i < |named| && Assign(named, x)[i].entity == v {
      NamedShown(rs, n, target, v);
      var j :| 0 <= j < |named| && named[j] == v;
      assert Assign(named, x)[j].entity == v;
    }
  }

  lemma {:induction false} FromRowsStep(rs: ResultSet, n: nat, target: Option<string>, e: Expression, rt: Runtime,
                                        list: seq<Assignment>, rows: seq<nat>, v: Value)
    requires RowsOk(rs) && n < |rs.rows| && FromRows(rs, n, target, e, rt, list, rows)
    requires Evaluate(e, RowOf(rs, n), rt) == Success(v)
    ensures var named := Named(RowOf(rs, n), target);
            FromRows(rs, n + 1, target, e, rt, list + Assign(named, v), rows + seq(|named|, i => n))
  {
    hide Evaluate, Named, Shows, OfRows, AllRows;
    var named := Named(RowOf(rs, n), target);
    RowAssigns(rs, n, target, v);
    OfRowsStep(rs, n, target, e, rt, list, rows, Assign(named, v), seq(|named|, i => n));
    AllRowsStep(rs, n, target, list, rows, Assign(named, v), seq(|named|, i => n));
  }

  lemma {:induction false} AssignmentsMeaning(rs: ResultSet, n: nat, target: Option<string>, e: Expression, rt: Runtime)
    returns (rows: seq<nat>)
    requires RowsOk(rs) && n <= |rs.rows| && Assignments(rs, n, target, e, rt).Success?
    ensures FromRows(rs, n, target, e, rt, Assignments(rs, n, target, e, rt).value, rows)
  {
    hide Evaluate, Named, FromRows;
    if n == 0 {
      rows := [];
      NoRows(rs, target, e, rt);
    } else {
      var before := AssignmentsMeaning(rs, n - 1, target, e, rt);
      var v := Evaluate(e, RowOf(rs, n - 1), rt).value;
      FromRowsStep(rs, n - 1, target, e, rt, Assignments(rs, n - 1, target, e, rt).value, before, v);
      rows := before + seq(|Named(RowOf(rs, n - 1), target)|, i => n - 1);
    }
  }

  lemma NoRows(rs: ResultSet, target: Option<string>, e: Expression, rt: Runtime)
    requires RowsOk(rs)
    ensures FromRows(rs, 0, target, e, rt, [], [])
  {
  }

  // ----- SET -----

  /** No row from the `from`-th on names the node. */
  ghost predicate NoLaterNode(rs: ResultSet, from: nat, target: Option<string>, graphId: Uuid, k: Bytes)
    requires RowsOk(rs)
  {
    forall r :: from <= r < |rs.rows| ==> !ShowsNode(rs, r, target, graphId, k)
  }

  ghost predicate NoLaterEdge(rs: ResultSet, from: nat, target: Option<string>, graphId: Uuid, k: Bytes)
    requires RowsOk(rs)
  {
    forall r :: from <= r < |rs.rows| ==> !ShowsEdge(rs, r, target, graphId, k)
  }

  lemma NamedLater(rs: ResultSet, target: Option<string>, e: Expression, rt: Runtime, list: seq<Assignment>, rows: seq<nat>,
                   graphId: Uuid, k: Bytes, from: nat, i: nat)
    requires RowsOk(rs) && FromRows(rs, |rs.rows|, target, e, rt, list, rows) && i < |list|
    ensures i < |rows| && 0 <= rows[i]
    ensures NoLaterNode(rs, from, target, graphId, k) && NamesNode(list[i], graphId, k) ==> rows[i] < from
    ensures NoLaterEdge(rs, from, target, graphId, k) && NamesEdge(list[i], graphId, k) ==> rows[i] < from
  {
    hide Evaluate, Shows, NodeKey, EdgeKey;
    assert Shows(rs, rows[i], target, list[i].entity);
    assert NamesNode(list[i], graphId, k) ==> ShowsNode(rs, rows[i], target, graphId, k);
    assert NamesEdge(list[i], graphId, k) ==> ShowsEdge(rs, rows[i], target, graphId, k);
  }

  /** The last assignment that names the node comes from the last row that does. */
  lemma {:induction false} LastNaming(rs: ResultSet, target: Option<string>, e: Expression, rt: Runtime, list: seq<Assignment>,
                                      rows: seq<nat>, graphId: Uuid, k: Bytes, r: nat) returns (i: nat)
    requires RowsOk(rs) && FromRows(rs, |rs.rows|, target, e, rt, list, rows) && r < |rs.rows|
    requires ShowsNode(rs, r, target, graphId, k) && NoLaterNode(rs, r + 1, target, graphId, k)
    ensures i < |list| && NamesNode(list[i], graphId, k) && Evaluate(e, RowOf(rs, r), rt) == Success(list[i].value)
    ensures forall j :: i < j < |list| ==> !NamesNode(list[j], graphId, k)
  {
    hide Evaluate, Shows, NodeKey;
    var v :| Shows(rs, r, target, v) && v.NodeVal? && NodeKey(graphId, v.nodeId) == k;
    i :| 0 <= i < |rows| && rows[i] == r && list[i].entity == v;
    assert NamesNode(list[i], graphId, k);
    hide FromRows, ShowsNode, NoLaterNode;
    i := LastFrom(rs, target, e, rt, list, rows, graphId, k, r, i);
  }

  lemma {:induction false} LastFrom(rs: ResultSet, target: Option<string>, e: Expression, rt: Runtime, list: seq<Assignment>,
                                    rows: seq<nat>, graphId: Uuid, k: Bytes, r: nat, i: nat) returns (last: nat)
    requires RowsOk(rs) && FromRows(rs, |rs.rows|, target, e, rt, list, rows) && r < |rs.rows|
    requires NoLaterNode(rs, r + 1, target, graphId, k) && i < |list| && rows[i] == r && NamesNode(list[i], graphId, k)
    ensures last < |list| && NamesNode(list[last], graphId, k) && Evaluate(e, RowOf(rs, r), rt) == Success(list[last].value)
    ensures forall j :: last < j < |list| ==> !NamesNode(list[j], graphId, k)
    decreases |list| - i
  {
    hide Evaluate, Shows, NamesNode, NoLaterNode;
    if j :| i < j < |list| && NamesNode(list[j], graphId, k) {
      NamedLater(rs, target, e, rt, list, rows, graphId, k, r + 1, j);
      last := LastFrom(rs, target, e, rt, list, rows, graphId, k, r, j);
    } else {
      last := i;
    }
  }

  lemma {:induction false} LastNamingEdge(rs: ResultSet, target: Option<string>, e: Expression, rt: Runtime,
                                          list: seq<Assignment>, rows: seq<nat>, graphId: Uuid, k: Bytes, r: nat)
    returns (i: nat)
    requires RowsOk(rs) && FromRows(rs, |rs.rows|, target, e, rt, list, rows) && r < |rs.rows|
    requires ShowsEdge(rs, r, target, graphId, k) && NoLaterEdge(rs, r + 1, target, graphId, k)
    ensures i < |list| && NamesEdge(list[i], graphId, k) && Evaluate(e, RowOf(rs, r), rt) == Success(list[i].value)
    ensures forall j :: i < j < |list| ==> !NamesEdge(list[j], graphId, k)
  {
    hide Evaluate, Shows, EdgeKey;
    var v :| Shows(rs, r, target, v) && v.EdgeVal? && EdgeKey(graphId, v.edgeId) == k;
    i :| 0 <= i < |rows| && rows[i] == r && list[i].entity == v;
    assert NamesEdge(list[i], graphId, k);
    hide FromRows, ShowsEdge, NoLaterEdge;
    i := LastFromEdge(rs, target, e, rt, list, rows, graphId, k, r, i);
  }

  lemma {:induction false} LastFromEdge(rs: ResultSet, target: Option<string>, e: Expression, rt: Runtime,
                                        list: seq<Assignment>, rows: seq<nat>, graphId: Uuid, k: Bytes, r: nat, i: nat)
    returns (last: nat)
    requires RowsOk(rs) && FromRows(rs, |rs.rows|, target, e, rt, list, rows) && r < |rs.rows|
    requires NoLaterEdge(rs, r + 1, target, graphId, k) && i < |list| && rows[i] == r && NamesEdge(list[i], graphId, k)
    ensures last < |list| && NamesEdge(list[last], graphId, k) && Evaluate(e, RowOf(rs, r), rt) == Success(list[last].value)
    ensures forall j :: last < j < |list| ==> !NamesEdge(list[j], graphId, k)
    decreases |list| - i
  {
    hide Evaluate, Shows, NamesEdge, NoLaterEdge;
    if j :| i < j < |list| && NamesEdge(list[j], graphId, k) {
      NamedLater(rs, target, e, rt, list, rows, graphId, k, r + 1, j);
      last := LastFromEdge(rs, target, e, rt, list, rows, graphId, k, r, j);
    } else {
      last := i;
    }
  }

  /**
   SET on nodes: a node that some row names has the property with the value the
   expression has on the last such row, and is otherwise as it was; a node no row
   names is untouched.
   */
  lemma {:induction false} SetNodeMeaning(t: Tables, graphId: Uuid, rs: ResultSet, target: Option<string>, e: Expression,
                                          rt: Runtime, property: string, now: Tables, count: int, k: Bytes)
    requires RowsOk(rs) && RowsSet(t, graphId, rs, |rs.rows|, target, e, rt, property, now, count) && k in t.nodes
    ensures now.nodes.Keys == t.nodes.Keys
    ensures NoLaterNode(rs, 0, target, graphId, k) ==> now.nodes[k] == t.nodes[k]
    ensures forall r :: 0 <= r < |rs.rows| && ShowsNode(rs, r, target, graphId, k)
                        && NoLaterNode(rs, r + 1, target, graphId, k) ==>
              && Evaluate(e, RowOf(rs, r), rt).Success?
              && NodeSetTo(t.nodes[k], now.nodes[k], property, Evaluate(e, RowOf(rs, r), rt).value)
  {
    hide *;
    var list := SetList(t, graphId, rs, target, e, rt, property, now, count, k);
    var rows := AssignmentsMeaning(rs, |rs.rows|, target, e, rt);
    if NoLaterNode(rs, 0, target, graphId, k) {
      forall i | 0 <= i < |list| ensures !NamesNode(list[i], graphId, k) {
        NamedLater(rs, target, e, rt, list, rows, graphId, k, 0, i);
      }
      UnnamedNode(t.nodes[k], list, graphId, k, property);
    }
    forall r | 0 <= r < |rs.rows| && ShowsNode(rs, r, target, graphId, k) && NoLaterNode(rs, r + 1, target, graphId, k)
      ensures Evaluate(e, RowOf(rs, r), rt).Success?
      ensures NodeSetTo(t.nodes[k], now.nodes[k], property, Evaluate(e, RowOf(rs, r), rt).value)
    {
      var i := LastNaming(rs, target, e, rt, list, rows, graphId, k, r);
      LastNamedNode(t.nodes[k], list, graphId, k, property, i);
    }
  }

  /** SET on edges, likewise. */
  lemma {:induction false} SetEdgeMeaning(t: Tables, graphId: Uuid, rs: ResultSet, target: Option<string>, e: Expression,
                                          rt: Runtime, property: string, now: Tables, count: int, k: Bytes)
    requires RowsOk(rs) && RowsSet(t, graphId, rs, |rs.rows|, target, e, rt, property, now, count) && k in t.edges
    ensures now.edges.Keys == t.edges.Keys
    ensures NoLaterEdge(rs, 0, target, graphId, k) ==> now.edges[k] == t.edges[k]
    ensures forall r :: 0 <= r < |rs.rows| && ShowsEdge(rs, r, target, graphId, k)
                        && NoLaterEdge(rs, r + 1, target, graphId, k) ==>
              && Evaluate(e, RowOf(rs, r), rt).Success?
              && EdgeSetTo(t.edges[k], now.edges[k], property, Evaluate(e, RowOf(rs, r), rt).value)
  {
    hide *;
    var list := SetList(t, graphId, rs, target, e, rt, property, now, count, k);
    var rows := AssignmentsMeaning(rs, |rs.rows|, target, e, rt);
    if NoLaterEdge(rs, 0, target, graphId, k) {
      forall i | 0 <= i < |list| ensures !NamesEdge(list[i], graphId, k) {
        NamedLater(rs, target, e, rt, list, rows, graphId, k, 0, i);
      }
      UnnamedEdge(t.edges[k], list, graphId, k, property);
    }
    forall r | 0 <= r < |rs.rows| && ShowsEdge(rs, r, target, graphId, k) && NoLaterEdge(rs, r + 1, target, graphId, k)
      ensures Evaluate(e, RowOf(rs, r), rt).Success?
      ensures EdgeSetTo(t.edges[k], now.edges[k], property, Evaluate(e, RowOf(rs, r), rt).value)
    {
      var i := LastNamingEdge(rs, target, e, rt, list, rows, graphId, k, r);
      LastNamedEdge(t.edges[k], list, graphId, k, property, i);
    }
  }

  /** The assignments behind a SET, and the records after them. */
  lemma SetList(t: Tables, graphId: Uuid, rs: ResultSet, target: Option<string>, e: Expression, rt: Runtime, property: string,
                now: Tables, count: int, k: Bytes) returns (list: seq<Assignment>)
    requires RowsOk(rs) && RowsSet(t, graphId, rs, |rs.rows|, target, e, rt, property, now, count)
    ensures Assignments(rs, |rs.rows|, target, e, rt) == Success(list) && count == WriteCount(list)
    ensures now.nodes.Keys == t.nodes.Keys && now.edges.Keys == t.edges.Keys
    ensures k in t.nodes ==> now.nodes[k] == NodeAfter(t.nodes[k], list, graphId, k, property)
    ensures k in t.edges ==> now.edges[k] == EdgeAfter(t.edges[k], list, graphId, k, property)
  {
    hide Assignments, SetAll;
    list := Assignments(rs, |rs.rows|, target, e, rt).value;
    SetAllExactly(t, graphId, list, property);
  }

  /** The reported number is how many of the assignments name a node or an edge. */
  lemma {:induction false} WriteCountMeaning(list: seq<Assignment>)
    ensures WriteCount(list) == |set i | 0 <= i < |list| && (list[i].entity.NodeVal? || list[i].entity.EdgeVal?)|
  {
    if list != [] {
      var n := |list| - 1;
      WriteCountMeaning(list[..n]);
      var before := set i | 0 <= i < n && (list[..n][i].entity.NodeVal? || list[..n][i].entity.EdgeVal?);
      var all := set i | 0 <= i < |list| && (list[i].entity.NodeVal? || list[i].entity.EdgeVal?);
      if list[n].entity.NodeVal? || list[n].entity.EdgeVal? {
        assert all == before + {n};
      } else {
        assert all == before;
      }
    }
  }

  // ----- DELETE -----

  lemma {:induction false} PickedMeaning(r: Record, targets: seq<string>, v: Value)
    requires RecordOk(r)
    ensures v in PickedValues(r, targets) <==> exists c :: c in targets && Get(r, c) == Some(v)
  {
    hide Position;
    if targets != [] {
      PickedMeaning(r, targets[1..], v);
      assert forall c :: c in targets <==> c == targets[0] || c in targets[1..];
    }
  }

  /** Deleted is what some row holds in one of the named columns, or anywhere where none is named. */
  lemma {:induction false} DeleteMeaning(rs: ResultSet, n: nat, targets: seq<string>, v: Value)
    requires RowsOk(rs) && n <= |rs.rows|
    ensures v in ValuesToDelete(rs, n, targets) <==>
              exists r :: 0 <= r < n
                && if targets == [] then v in rs.rows[r] else exists c :: c in targets && Get(RowOf(rs, r), c) == Some(v)
  {
    hide PickedValues, Get;
    if n > 0 {
      DeleteMeaning(rs, n - 1, targets, v);
      PickedMeaning(RowOf(rs, n - 1), targets, v);
    }
  }

  lemma NamedKeys(graphId: Uuid, vals: seq<Value>, k: Bytes)
    ensures k in KeysIn(graphId, NodeIdsIn(vals)) <==> exists v :: v in vals && v.NodeVal? && NodeKey(graphId, v.nodeId) == k
    ensures k in KeysIn(graphId, EdgeIdsIn(vals)) <==> exists v :: v in vals && v.EdgeVal? && EdgeKey(graphId, v.edgeId) == k
  {
    hide NodeKey;
    if v :| v in vals && v.NodeVal? && NodeKey(graphId, v.nodeId) == k {
      assert v.nodeId in NodeIdsIn(vals);
    }
    if v :| v in vals && v.EdgeVal? && NodeKey(graphId, v.edgeId) == k {
      assert v.edgeId in EdgeIdsIn(vals);
    }
  }

  /**
   After a DELETE a node is stored if and only if it was and no deleted value names
   it; an edge if and only if it was, no deleted value names it and neither of its
   ends is deleted.
   */
  lemma DeletedMeaning(was: Tables, stats: ExecStats, now: Tables, stats': ExecStats, graphId: Uuid, vals: seq<Value>, k: Bytes)
    requires Deleted(was, stats, now, stats', graphId, vals)
    ensures k in now.nodes <==>
              k in was.nodes && !exists v :: v in vals && v.NodeVal? && NodeKey(graphId, v.nodeId) == k
    ensures k in now.nodes ==> now.nodes[k] == was.nodes[k]
    ensures k in now.edges <==>
              && k in was.edges && !(exists v :: v in vals && v.EdgeVal? && EdgeKey(graphId, v.edgeId) == k)
              && !(was.edges[k].graphId == graphId
                   && exists v :: v in vals && v.NodeVal? && (v.nodeId == was.edges[k].source || v.nodeId == was.edges[k].target))
    ensures k in now.edges ==> now.edges[k] == was.edges[k]
  {
    hide NodeKey, KeysIn, EdgeIdsIn;
    NamedKeys(graphId, vals, k);
  }
}
