/**
 The executor's writes: creating nodes, setting properties, deleting nodes and
 edges, defining indexes, each with the index maintenance that goes with it.
 */
module ExecutionEngines {
  import opened Bytes
  import opened OrderedStore
  import opened Wrappers
  import opened Values
  import opened Syntax
  import opened Expressions
  import opened GraphKeys
  import opened SecondaryIndex
  import opened GraphStore
  import opened PropertyIndex
  import opened StorageEngines
  import opened IndexScans
  import opened IndexMaintenance
  import opened IndexRuns

  datatype ExecError = Evaluation(error: EvalError) | StorageFailure(cause: StorageError)

  type ExecResult<T> = Result<T, ExecError>

  /** Mutation counts. */
  datatype ExecStats = ExecStats(nodesCreated: int, nodesDeleted: int, edgesDeleted: int, propertiesSet: int)

  const NO_STATS: ExecStats := ExecStats(0, 0, 0, 0)

  datatype Tables = Tables(nodes: NodeTable, edges: EdgeTable)

  const EMPTY_RECORD: Record := Record([], [])

  // ----- set property -----

  datatype Assignment = Assignment(entity: Value, value: Value)

  /** What a row names: the target's value, or every value of the row. */
  function Named(r: Record, target: Option<string>): seq<Value>
    requires RecordOk(r)
  {
    match target
    case None => r.values
    case Some(name) => match Get(r, name) case Some(v) => [v] case None => []
  }

  function SetNode(n: Node, property: string, v: Value): Node {
    n.(properties := n.properties[property := v])
  }

  function SetEdge(e: Edge, property: string, v: Value): Edge {
    e.(properties := e.properties[property := v])
  }

  /** One assignment: the property of the named node or edge, if it exists; other values name nothing. */
  function SetOne(t: Tables, graphId: Uuid, a: Assignment, property: string): Option<Tables> {
    match a.entity
    case NodeVal(id, _, _) =>
      var k := NodeKey(graphId, id);
      if k in t.nodes then Some(t.(nodes := t.nodes[k := SetNode(t.nodes[k], property, a.value)])) else None
    case EdgeVal(id, _, _, _, _) =>
      var k := EdgeKey(graphId, id);
      if k in t.edges then Some(t.(edges := t.edges[k := SetEdge(t.edges[k], property, a.value)])) else None
    case _ => Some(t)
  }

  function SetAll(t: Tables, graphId: Uuid, list: seq<Assignment>, property: string): Option<Tables>
    decreases |list|
  {
    if list == [] then Some(t)
    else
      match SetOne(t, graphId, list[0], property)
      case None => None
      case Some(t') => SetAll(t', graphId, list[1..], property)
  }

  lemma {:induction false} SetAllConcat(t: Tables, graphId: Uuid, a: seq<Assignment>, b: seq<Assignment>, property: string)
    ensures SetAll(t, graphId, a + b, property) ==
              match SetAll(t, graphId, a, property) case None => None case Some(t') => SetAll(t', graphId, b, property)
    decreases |a|
  {
    hide SetOne;
    if a == [] {
      assert a + b == b;
    } else {
      assert (a + b)[0] == a[0] && (a + b)[1..] == a[1..] + b;
      match SetOne(t, graphId, a[0], property)
      case None =>
      case Some(t') => SetAllConcat(t', graphId, a[1..], b, property);
    }
  }

  function Assign(targets: seq<Value>, v: Value): (r: seq<Assignment>)
    ensures |r| == |targets| && forall i :: 0 <= i < |r| ==> r[i] == Assignment(targets[i], v)
  {
    seq(|targets|, i requires 0 <= i < |targets| => Assignment(targets[i], v))
  }

  /** All assignments of the first `n` rows, or the first evaluation error. */
  ghost function Assignments(rs: ResultSet, n: nat, target: Option<string>, e: Expression, rt: Runtime):
    Result<seq<Assignment>, EvalError>
    requires RowsOk(rs) && n <= |rs.rows|
  {
    if n == 0 then Success([])
    else
      var before :- Assignments(rs, n - 1, target, e, rt);
      var v :- Evaluate(e, RowOf(rs, n - 1), rt);
      Success(before + Assign(Named(RowOf(rs, n - 1), target), v))
  }

  predicate Writes(a: Assignment) {
    a.entity.NodeVal? || a.entity.EdgeVal?
  }

  function WriteCount(list: seq<Assignment>): nat {
    if list == [] then 0 else WriteCount(list[..|list| - 1]) + (if Writes(list[|list| - 1]) then 1 else 0)
  }

  lemma {:induction false} WriteCountConcat(a: seq<Assignment>, b: seq<Assignment>)
    ensures WriteCount(a + b) == WriteCount(a) + WriteCount(b)
  {
    if b == [] {
      assert a + b == a;
    } else {
      assert (a + b)[..|a + b| - 1] == a + b[..|b| - 1];
      WriteCountConcat(a, b[..|b| - 1]);
    }
  }

  predicate NamesNode(a: Assignment, graphId: Uuid, k: Bytes) {
    a.entity.NodeVal? && NodeKey(graphId, a.entity.nodeId) == k
  }

  predicate NamesEdge(a: Assignment, graphId: Uuid, k: Bytes) {
    a.entity.EdgeVal? && EdgeKey(graphId, a.entity.edgeId) == k
  }

  /** The node after the assignments: the last one that names it decides. */
  function NodeAfter(n: Node, list: seq<Assignment>, graphId: Uuid, k: Bytes, property: string): Node {
    if list == [] then n
    else
      var last := list[|list| - 1];
      if NamesNode(last, graphId, k) then SetNode(n, property, last.value)
      else NodeAfter(n, list[..|list| - 1], graphId, k, property)
  }

  function EdgeAfter(e: Edge, list: seq<Assignment>, graphId: Uuid, k: Bytes, property: string): Edge {
    if list == [] then e
    else
      var last := list[|list| - 1];
      if NamesEdge(last, graphId, k) then SetEdge(e, property, last.value)
      else EdgeAfter(e, list[..|list| - 1], graphId, k, property)
  }

  ghost predicate After(t: Tables, t': Tables, list: seq<Assignment>, graphId: Uuid, property: string) {
    && t'.nodes.Keys == t.nodes.Keys && t'.edges.Keys == t.edges.Keys
    && (forall k :: k in t.nodes ==> t'.nodes[k] == NodeAfter(t.nodes[k], list, graphId, k, property))
    && (forall k :: k in t.edges ==> t'.edges[k] == EdgeAfter(t.edges[k], list, graphId, k, property))
  }

  lemma {:induction false} SetTwiceNode(n: Node, list: seq<Assignment>, graphId: Uuid, k: Bytes, property: string, v: Value)
    ensures SetNode(NodeAfter(n, list, graphId, k, property), property, v) == SetNode(n, property, v)
  {
    hide NamesNode;
    if list != [] {
      var last := list[|list| - 1];
      assert n.properties[property := last.value][property := v] == n.properties[property := v];
      SetTwiceNode(n, list[..|list| - 1], graphId, k, property, v);
    }
  }

  lemma {:induction false} SetTwiceEdge(e: Edge, list: seq<Assignment>, graphId: Uuid, k: Bytes, property: string, v: Value)
    ensures SetEdge(EdgeAfter(e, list, graphId, k, property), property, v) == SetEdge(e, property, v)
  {
    hide NamesEdge;
    if list != [] {
      var last := list[|list| - 1];
      assert e.properties[property := last.value][property := v] == e.properties[property := v];
      SetTwiceEdge(e, list[..|list| - 1], graphId, k, property, v);
    }
  }

  lemma AfterOne(t: Tables, before: Tables, list: seq<Assignment>, graphId: Uuid, property: string)
    requires list != [] && After(t, before, list[..|list| - 1], graphId, property)
    requires SetOne(before, graphId, list[|list| - 1], property).Some?
    ensures After(t, SetOne(before, graphId, list[|list| - 1], property).value, list, graphId, property)
  {
    hide NodeKey, EdgeKey, SetNode, SetEdge;
    var a := list[|list| - 1];
    var t' := SetOne(before, graphId, a, property).value;
    forall k | k in t.nodes ensures t'.nodes[k] == NodeAfter(t.nodes[k], list, graphId, k, property) {
      SetTwiceNode(t.nodes[k], list[..|list| - 1], graphId, k, property, a.value);
    }
    forall k | k in t.edges ensures t'.edges[k] == EdgeAfter(t.edges[k], list, graphId, k, property) {
      SetTwiceEdge(t.edges[k], list[..|list| - 1], graphId, k, property, a.value);
    }
  }

  /**
   Setting a property creates and removes nothing; a node or edge that is named
   ends with the last value assigned to it, one that is not named is untouched.
   */
  lemma {:induction false} SetAllExactly(t: Tables, graphId: Uuid, list: seq<Assignment>, property: string)
    requires SetAll(t, graphId, list, property).Some?
    ensures After(t, SetAll(t, graphId, list, property).value, list, graphId, property)
    decreases |list|
  {
    hide After, SetOne, SetAll;
    if list == [] {
      AfterNone(t, graphId, property);
    } else {
      var n := |list| - 1;
      assert list == list[..n] + [list[n]];
      SetAllConcat(t, graphId, list[..n], [list[n]], property);
      SetAllExactly(t, graphId, list[..n], property);
      var before := SetAll(t, graphId, list[..n], property).value;
      SetAllSingle(before, graphId, list[n], property);
      AfterOne(t, before, list, graphId, property);
    }
  }

  lemma AfterNone(t: Tables, graphId: Uuid, property: string)
    ensures SetAll(t, graphId, [], property) == Some(t) && After(t, t, [], graphId, property)
  {
  }

  lemma SetAllSingle(t: Tables, graphId: Uuid, a: Assignment, property: string)
    ensures SetAll(t, graphId, [a], property) == SetOne(t, graphId, a, property)
  {
    assert [a][1..] == [];
  }

  /** All evaluations of the first `n` rows succeed and every node and edge they name exists. */
  ghost predicate RowsSettable(t: Tables, graphId: Uuid, rs: ResultSet, n: nat, target: Option<string>, e: Expression,
                               rt: Runtime, property: string)
    requires RowsOk(rs) && n <= |rs.rows|
  {
    var list := Assignments(rs, n, target, e, rt);
    list.Success? && SetAll(t, graphId, list.value, property).Some?
  }

  /** The first `n` rows turn the tables into `now`, by `count` assignments. */
  ghost predicate RowsSet(t: Tables, graphId: Uuid, rs: ResultSet, n: nat, target: Option<string>, e: Expression,
                          rt: Runtime, property: string, now: Tables, count: int)
    requires RowsOk(rs) && n <= |rs.rows|
  {
    var list := Assignments(rs, n, target, e, rt);
    list.Success? && SetAll(t, graphId, list.value, property) == Some(now) && count == WriteCount(list.value)
  }

  // ----- delete -----

  ghost function NodeIdsIn(vals: seq<Value>): set<Uuid> {
    set v | v in vals && v.NodeVal? :: v.nodeId
  }

  ghost function EdgeIdsIn(vals: seq<Value>): set<Uuid> {
    set v | v in vals && v.EdgeVal? :: v.edgeId
  }

  ghost function KeysIn(graphId: Uuid, ids: set<Uuid>): set<Bytes> {
    set id | id in ids :: NodeKey(graphId, id)
  }

  /** The edges that are not at any of the nodes. */
  ghost function WithoutIncidentTo(edges: EdgeTable, graphId: Uuid, ids: set<Uuid>): EdgeTable {
    map k | k in edges && !(edges[k].graphId == graphId && (edges[k].source in ids || edges[k].target in ids)) :: edges[k]
  }

  /** The values a row's named columns hold, or all its values when no column is named. */
  function TargetValues(r: Record, targets: seq<string>): seq<Value>
    requires RecordOk(r)
  {
    if targets == [] then r.values else PickedValues(r, targets)
  }

  function PickedValues(r: Record, targets: seq<string>): seq<Value>
    requires RecordOk(r)
  {
    if targets == [] then []
    else (match Get(r, targets[0]) case Some(v) => [v] case None => []) + PickedValues(r, targets[1..])
  }

  function ValuesToDelete(rs: ResultSet, n: nat, targets: seq<string>): seq<Value>
    requires RowsOk(rs) && n <= |rs.rows|
  {
    if n == 0 then [] else ValuesToDelete(rs, n - 1, targets) + TargetValues(RowOf(rs, n - 1), targets)
  }

  lemma {:induction false} KeysInSize(graphId: Uuid, ids: set<Uuid>)
    ensures |KeysIn(graphId, ids)| == |ids|
  {
    if ids != {} {
      var id :| id in ids;
      KeysInSize(graphId, ids - {id});
      assert KeysIn(graphId, ids) == KeysIn(graphId, ids - {id}) + {NodeKey(graphId, id)};
      assert NodeKey(graphId, id) !in KeysIn(graphId, ids - {id}) by {
        forall x | x in ids - {id} ensures NodeKey(graphId, x) != NodeKey(graphId, id) {
          assert NodeKey(graphId, x)[16..] == x && NodeKey(graphId, id)[16..] == id;
        }
      }
    }
  }

  lemma SizeWithout<V>(m: map<Bytes, V>, gone: set<Bytes>)
    requires gone <= m.Keys
    ensures |m - gone| == |m| - |gone|
  {
    assert (m - gone).Keys == m.Keys - gone;
    assert |m| == |m.Keys| && |m - gone| == |(m - gone).Keys|;
  }

  ghost function EdgeIds(list: seq<Edge>): set<Uuid> {
    set e | e in list :: e.id
  }

  /** Counting the distinct ids at both ends counts the edges that deleting the node will delete. */
  lemma IncidentCount(edges: EdgeTable, outgoing: seq<Edge>, incoming: seq<Edge>, graphId: Uuid, id: Uuid)
    requires ListsEdges(outgoing, edges, e => Leaves(e, graphId, id, None))
    requires ListsEdges(incoming, edges, e => Enters(e, graphId, id, None))
    requires EdgesKeyed(edges)
    ensures |EdgeIds(outgoing + incoming)| == |edges| - |WithoutIncident(edges, graphId, id)|
  {
    var list := outgoing + incoming;
    forall e | e in list ensures e.graphId == graphId && EdgeOf(e) in edges {
      if e !in outgoing {
        assert e in incoming;
      }
    }
    BothEndsAreIncident(edges, outgoing, incoming, graphId, id);
    hide ListsEdges, NodeKey, EdgeKey, EdgesKeyed, WithoutIncident;
    SameKeys(list, graphId);
    KeysInSize(graphId, EdgeIds(list));
    SizeWithout(edges, KeysOf(list));
  }

  lemma SameKeys(list: seq<Edge>, graphId: Uuid)
    requires forall e :: e in list ==> e.graphId == graphId
    ensures KeysIn(graphId, EdgeIds(list)) == KeysOf(list)
  {
    forall k | k in KeysOf(list) ensures k in KeysIn(graphId, EdgeIds(list)) {
      var e :| e in list && EdgeOf(e) == k;
      assert e.id in EdgeIds(list) && NodeKey(graphId, e.id) == k;
    }
    forall k | k in KeysIn(graphId, EdgeIds(list)) ensures k in KeysOf(list) {
      var id :| id in EdgeIds(list) && NodeKey(graphId, id) == k;
      var e :| e in list && e.id == id;
      assert EdgeOf(e) == k;
    }
  }

  // ----- evaluation of property lists -----

  lemma {:induction false} FailsFrom(properties: seq<Entry>, i: nat, r: Record, rt: Runtime)
    requires RecordOk(r) && i <= |properties| && EvaluateEntries(properties[..i], r, rt).Failure?
    ensures EvaluateEntries(properties, r, rt) == EvaluateEntries(properties[..i], r, rt)
    decreases |properties| - i
  {
    hide Evaluate;
    if i == |properties| {
      assert properties[..i] == properties;
    } else {
      assert properties[..i + 1][..i] == properties[..i];
      FailsFrom(properties, i + 1, r, rt);
    }
  }

  lemma EntriesStep(properties: seq<Entry>, i: nat, r: Record, rt: Runtime)
    requires RecordOk(r) && i < |properties| && EvaluateEntries(properties[..i], r, rt).Success?
    ensures EvaluateEntries(properties[..i + 1], r, rt) ==
              match Evaluate(properties[i].value, r, rt)
              case Success(v) => Success(EvaluateEntries(properties[..i], r, rt).value[properties[i].key := v])
              case Failure(e) => Failure(e)
  {
    hide Evaluate;
    assert properties[..i + 1][..i] == properties[..i];
  }

  lemma NoEntries(properties: seq<Entry>, rt: Runtime)
    ensures EvaluateEntries(properties[..0], EMPTY_RECORD, rt) == Success(map[])
  {
  }

  method EvaluateProperties(properties: seq<Entry>, rt: Runtime) returns (r: Result<Props, EvalError>)
    ensures r == EvaluateEntries(properties, EMPTY_RECORD, rt)
  {
    hide Evaluate, EvaluateEntries;
    var m: Props := map[];
    var i := 0;
    NoEntries(properties, rt);
    while i < |properties|
      invariant 0 <= i <= |properties| && EvaluateEntries(properties[..i], EMPTY_RECORD, rt) == Success(m)
    {
      EntriesStep(properties, i, EMPTY_RECORD, rt);
      var v := Evaluate(properties[i].value, EMPTY_RECORD, rt);
      if v.Failure? {
        FailsFrom(properties, i + 1, EMPTY_RECORD, rt);
        return Failure(v.error);
      }
      m := m[properties[i].key := v.value];
      i := i + 1;
    }
    assert properties[..i] == properties;
    return Success(m);
  }

  // ----- the loops of set property -----

  lemma SetAllFailsFrom(t: Tables, graphId: Uuid, list: seq<Assignment>, i: nat, property: string)
    requires i <= |list| && SetAll(t, graphId, list[..i], property).None?
    ensures SetAll(t, graphId, list, property).None?
  {
    assert list == list[..i] + list[i..];
    SetAllConcat(t, graphId, list[..i], list[i..], property);
  }

  lemma SetAllStep(t: Tables, graphId: Uuid, list: seq<Assignment>, i: nat, property: string)
    requires i < |list| && SetAll(t, graphId, list[..i], property).Some?
    ensures SetAll(t, graphId, list[..i + 1], property) ==
              SetOne(SetAll(t, graphId, list[..i], property).value, graphId, list[i], property)
    ensures WriteCount(list[..i + 1]) == WriteCount(list[..i]) + (if Writes(list[i]) then 1 else 0)
  {
    assert list[..i + 1] == list[..i] + [list[i]];
    SetAllConcat(t, graphId, list[..i], [list[i]], property);
    SetAllSingle(SetAll(t, graphId, list[..i], property).value, graphId, list[i], property);
    assert list[..i + 1][..i] == list[..i];
  }

  lemma OneMoreEntry(defs: seq<IndexDefinition>, i: nat, node: Node, env: Env)
    requires i < |defs|
    ensures EntriesOf(defs[..i + 1], node, env) ==
              EntriesOf(defs[..i], node, env) + (if Covers(defs[i], node) then {NodeEntry(defs[i], node, env)} else {})
  {
    hide Covers, NodeEntry;
    assert defs[..i + 1] == defs[..i] + [defs[i]];
  }

  lemma NoEntriesYet(node: Node, env: Env)
    ensures EntriesOf([], node, env) == {}
  {
  }

  lemma MinusTwice(family: IndexFamily, a: set<Bytes>, b: set<Bytes>)
    ensures (family - a) - b == family - (a + b)
  {
  }

  /** Whether a node can end an expansion: any of the labels will do, and none asked for means all. */
  predicate AcceptsNeighbour(n: Node, targetLabels: seq<string>) {
    targetLabels == [] || exists l | l in targetLabels :: l in n.labels
  }

  class ExecutionEngine {
    const storage: StorageEngine
    const rt: Runtime
    var stats: ExecStats

    constructor (storage: StorageEngine, rt: Runtime)
      ensures this.storage == storage && this.rt == rt && stats == NO_STATS
    {
      this.storage := storage;
      this.rt := rt;
      stats := NO_STATS;
    }

    ghost predicate Valid()
      reads this, storage, storage.index
    {
      storage.GraphInv() && storage.index.Valid()
    }

    ghost function Env(): Env {
      storage.index.env
    }

    ghost function Stored(): Tables
      reads storage
    {
      Tables(storage.nodes, storage.edges)
    }

    // ----- index maintenance -----

    /** Every index of the node's graph that covers the node takes its entry; errors are ignored. */
    method IndexNodeOnWrite(node: Node)
      requires storage.index.Valid()
      modifies storage.index
      ensures storage.index.Valid()
      ensures var was := old(storage.index.family);
              storage.index.family == IndexAll(was, DefsAt(was, node.graphId, Env()), node, Env())
    {
      hide FamilyOk, EnvOk, DefsAt, Covers, NodeEntry, Clashes, IndexInv, EdgeFamiliesInv, NodeFamiliesInv;
      var defs := storage.index.ListIndexes(node.graphId);
      var i := 0;
      while i < |defs|
        invariant 0 <= i <= |defs| && storage.index.Valid()
        invariant storage.index.family == IndexAll(old(storage.index.family), defs[..i], node, Env())
      {
        assert defs[..i + 1][..i] == defs[..i];
        if Covers(defs[i], node) {
          var ignored := storage.index.IndexNode(defs[i], node);
        }
        i := i + 1;
      }
      assert defs[..i] == defs;
    }

    /** The node's entries leave every index that covers it. */
    method UnindexNodeOnDelete(node: Node)
      requires storage.index.Valid()
      modifies storage.index
      ensures storage.index.Valid()
      ensures storage.index.family == UnindexAll(old(storage.index.family), node, Env())
    {
      hide FamilyOk, EnvOk, DefsAt, Covers, NodeEntry, EntriesOf;
      NoEntriesYet(node, Env());
      var defs := storage.index.ListIndexes(node.graphId);
      var i := 0;
      assert defs[..0] == [];
      while i < |defs|
        invariant 0 <= i <= |defs| && storage.index.Valid()
        invariant storage.index.family == old(storage.index.family) - EntriesOf(defs[..i], node, Env())
      {
        OneMoreEntry(defs, i, node, Env());
        if Covers(defs[i], node) {
          storage.index.UnindexNode(defs[i], node);
          MinusTwice(old(storage.index.family), EntriesOf(defs[..i], node, Env()), {NodeEntry(defs[i], node, Env())});
        } else {
          assert EntriesOf(defs[..i + 1], node, Env()) == EntriesOf(defs[..i], node, Env());
        }
        i := i + 1;
      }
      assert defs[..i] == defs;
    }

    // ----- create node -----

    /** Evaluates the properties, stores the node under a fresh id and indexes it; an error leaves everything as it was. */
    method ExecCreateNode(graphId: Uuid, freshId: Uuid, labels: seq<string>, properties: seq<Entry>)
      returns (r: ExecResult<Uuid>)
      requires Valid() && NodeKey(graphId, freshId) !in storage.nodes
      modifies this, storage, storage.index
      ensures Valid() && storage.edges == old(storage.edges)
      ensures r.Success? <==> EvaluateEntries(properties, EMPTY_RECORD, rt).Success?
      ensures r.Failure? ==> (storage.nodes == old(storage.nodes) && storage.index.family == old(storage.index.family)
                              && stats == old(stats))
      ensures r.Success? ==>
                var node := Node(freshId, graphId, (set l | l in labels), EvaluateEntries(properties, EMPTY_RECORD, rt).value);
                && r.value == freshId && storage.nodes == old(storage.nodes)[NodeOf(node) := node]
                && storage.index.family ==
                     IndexAll(old(storage.index.family), DefsAt(old(storage.index.family), graphId, Env()), node, Env())
                && stats == old(stats).(nodesCreated := old(stats).nodesCreated + 1)
      ensures Keeps(old(storage.index.family), old(storage.nodes), storage.index.family, storage.nodes, Env())
    {
      hide EdgeFamiliesInv, FamilyOk, EnvOk, Evaluate, EvaluateEntries, IndexInv, Keeps, IndexAll, DefsAt;
      var evaluated := EvaluateProperties(properties, rt);
      if evaluated.Failure? {
        KeepsReflexive(storage.index.family, storage.nodes, Env());
        return Failure(Evaluation(evaluated.error));
      }
      var node := Node(freshId, graphId, (set l | l in labels), evaluated.value);
      IndexKeeps(storage.index.family, storage.nodes, node, Env());
      storage.PutNode(node);
      stats := stats.(nodesCreated := stats.nodesCreated + 1);
      IndexNodeOnWrite(node);
      return Success(freshId);
    }

    // ----- set property -----

    /** Rewrites a stored node: its old index entries go before the write and its new ones come after it. */
    method RewriteNode(node: Node)
      requires Valid() && NodeOf(node) in storage.nodes
      modifies storage, storage.index
      ensures Valid() && storage.edges == old(storage.edges)
      ensures storage.nodes == old(storage.nodes)[NodeOf(node) := node]
      ensures Keeps(old(storage.index.family), old(storage.nodes), storage.index.family, storage.nodes, Env())
      ensures var between := UnindexAll(old(storage.index.family), old(storage.nodes)[NodeOf(node)], Env());
              FamilyOk(between, Env()) &&
              storage.index.family == IndexAll(between, DefsAt(between, node.graphId, Env()), node, Env())
    {
      hide EdgeFamiliesInv, FamilyOk, EnvOk, IndexInv, Keeps, IndexAll, UnindexAll, DefsAt, NodeOf;
      RewriteKeeps(storage.index.family, storage.nodes, node, Env());
      SameGraph(storage.nodes, node);
      UnindexNodeOnDelete(storage.nodes[NodeOf(node)]);
      storage.PutNode(node);
      IndexNodeOnWrite(node);
    }

    /** One node: rewritten with the property, if it is stored. */
    method SetNodeProperty(graphId: Uuid, id: Uuid, property: string, v: Value) returns (r: ExecResult<()>)
      requires Valid()
      modifies this, storage, storage.index
      ensures Valid() && storage.edges == old(storage.edges)
      ensures var k := NodeKey(graphId, id);
              && (r.Success? <==> k in old(storage.nodes))
              && storage.nodes == (if k in old(storage.nodes)
                                   then old(storage.nodes)[k := SetNode(old(storage.nodes)[k], property, v)]
                                   else old(storage.nodes))
      ensures stats == old(stats).(propertiesSet := old(stats).propertiesSet + (if r.Success? then 1 else 0))
      ensures Keeps(old(storage.index.family), old(storage.nodes), storage.index.family, storage.nodes, Env())
    {
      hide EdgeFamiliesInv, FamilyOk, EnvOk, IndexInv, Keeps, NodeFamiliesInv, NodeKey;
      KeepsReflexive(storage.index.family, storage.nodes, Env());
      var got := storage.GetNode(graphId, id);
      if got.Failure? {
        return Failure(StorageFailure(got.error));
      }
      NodeParts(storage.nodes, storage.nodeLabels, graphId, id);
      RewriteNode(SetNode(got.value, property, v));
      stats := stats.(propertiesSet := stats.propertiesSet + 1);
      return Success(());
    }

    method SetEdgeProperty(graphId: Uuid, id: Uuid, property: string, v: Value) returns (r: ExecResult<()>)
      requires Valid()
      modifies this, storage
      ensures Valid() && storage.nodes == old(storage.nodes)
      ensures var k := EdgeKey(graphId, id);
              && (r.Success? <==> k in old(storage.edges))
              && storage.edges == (if k in old(storage.edges)
                                   then old(storage.edges)[k := SetEdge(old(storage.edges)[k], property, v)]
                                   else old(storage.edges))
      ensures stats == old(stats).(propertiesSet := old(stats).propertiesSet + (if r.Success? then 1 else 0))
    {
      hide EdgeFamiliesInv, FamilyOk, EnvOk, IndexInv, NodeFamiliesInv, EdgeKey;
      var got := storage.GetEdge(graphId, id);
      if got.Failure? {
        return Failure(StorageFailure(got.error));
      }
      EdgeParts(storage.edges, storage.adjOut, storage.adjIn, storage.edgeLabels, graphId, id);
      storage.PutEdge(SetEdge(got.value, property, v));
      stats := stats.(propertiesSet := stats.propertiesSet + 1);
      return Success(());
    }

    /** Sets the property of the node or edge the value names; fails if it is not stored. */
    method SetEntity(graphId: Uuid, entity: Value, property: string, v: Value) returns (r: ExecResult<()>)
      requires Valid()
      modifies this, storage, storage.index
      ensures Valid()
      ensures var set_ := SetOne(old(Stored()), graphId, Assignment(entity, v), property);
              && (r.Success? <==> set_.Some?)
              && Stored() == (if set_.Some? then set_.value else old(Stored()))
      ensures stats == old(stats).(propertiesSet := old(stats).propertiesSet
                + (if r.Success? && Writes(Assignment(entity, v)) then 1 else 0))
      ensures Keeps(old(storage.index.family), old(storage.nodes), storage.index.family, storage.nodes, Env())
    {
      hide EdgeFamiliesInv, FamilyOk, EnvOk, IndexInv, Keeps, NodeFamiliesInv, NodeKey, EdgeKey, SetNode, SetEdge;
      KeepsReflexive(storage.index.family, storage.nodes, Env());
      match entity
      case NodeVal(id, _, _) => r := SetNodeProperty(graphId, id, property, v);
      case EdgeVal(id, _, _, _, _) => r := SetEdgeProperty(graphId, id, property, v);
      case _ => r := Success(());
    }

    /** Sets the property on every value of the list that names a node or an edge, in order. */
    method SetEach(graphId: Uuid, targets: seq<Value>, property: string, v: Value) returns (r: ExecResult<int>)
      requires Valid()
      modifies this, storage, storage.index
      ensures Valid()
      ensures var done := SetAll(old(Stored()), graphId, Assign(targets, v), property);
              && (r.Success? <==> done.Some?)
              && (r.Success? ==> Stored() == done.value)
      ensures r.Success? ==> r.value == WriteCount(Assign(targets, v))
      ensures r.Success? ==> stats == old(stats).(propertiesSet := old(stats).propertiesSet + r.value)
      ensures Keeps(old(storage.index.family), old(storage.nodes), storage.index.family, storage.nodes, Env())
    {
      hide EdgeFamiliesInv, NodeFamiliesInv, FamilyOk, EnvOk, Keeps, SetOne, SetAll, WriteCount, Writes;
      ghost var was := Stored();
      ghost var list := Assign(targets, v);
      KeepsReflexive(storage.index.family, storage.nodes, Env());
      NothingSet(was, graphId, list, property);
      var modified := 0;
      var i := 0;
      while i < |targets|
        invariant 0 <= i <= |targets| && Valid()
        invariant SetAll(was, graphId, list[..i], property) == Some(Stored())
        invariant modified == WriteCount(list[..i])
        invariant stats == old(stats).(propertiesSet := old(stats).propertiesSet + modified)
        invariant Keeps(old(storage.index.family), old(storage.nodes), storage.index.family, storage.nodes, Env())
      {
        label Before:
        SetAllStep(was, graphId, list, i, property);
        var set_ := SetEntity(graphId, targets[i], property, v);
        KeepsTransitive(old(storage.index.family), old(storage.nodes), old@Before(storage.index.family),
                        old@Before(storage.nodes), storage.index.family, storage.nodes, Env());
        if set_.Failure? {
          SetAllFailsFrom(was, graphId, list, i + 1, property);
          return Failure(set_.error);
        }
        if Writes(Assignment(targets[i], v)) {
          modified := modified + 1;
        }
        i := i + 1;
      }
      assert list[..i] == list;
      return Success(modified);
    }

    /**
     Evaluates the value on each row and sets it on what the row names. Succeeds
     exactly when every evaluation does and every named node and edge exists.
     */
    method ExecSetProperty(graphId: Uuid, rs: ResultSet, target: Option<string>, property: string, value: Expression)
      returns (r: ExecResult<int>)
      requires Valid() && RowsOk(rs)
      modifies this, storage, storage.index
      ensures Valid()
      ensures r.Success? <==> RowsSettable(old(Stored()), graphId, rs, |rs.rows|, target, value, rt, property)
      ensures r.Success? ==> RowsSet(old(Stored()), graphId, rs, |rs.rows|, target, value, rt, property, Stored(), r.value)
      ensures r.Success? ==> stats == old(stats).(propertiesSet := old(stats).propertiesSet + r.value)
      ensures Keeps(old(storage.index.family), old(storage.nodes), storage.index.family, storage.nodes, Env())
    {
      hide *;
      ghost var was := Stored();
      KeepsReflexive(storage.index.family, storage.nodes, Env());
      NoRowsSet(was, graphId, rs, target, value, rt, property);
      var modified := 0;
      var i := 0;
      while i < |rs.rows|
        invariant 0 <= i <= |rs.rows| && Valid()
        invariant RowsSet(was, graphId, rs, i, target, value, rt, property, Stored(), modified)
        invariant stats == old(stats).(propertiesSet := old(stats).propertiesSet + modified)
        invariant Keeps(old(storage.index.family), old(storage.nodes), storage.index.family, storage.nodes, Env())
      {
        label Before:
        var row := RowOf(rs, i);
        var v := Evaluate(value, row, rt);
        RowsSetStep(was, graphId, rs, i, target, value, rt, property, Stored(), modified);
        if v.Failure? {
          RowsSettableUpTo(was, graphId, rs, i + 1, target, value, rt, property);
          return Failure(Evaluation(v.error));
        }
        var done := SetEach(graphId, Named(row, target), property, v.value);
        KeepsTransitive(old(storage.index.family), old(storage.nodes), old@Before(storage.index.family),
                        old@Before(storage.nodes), storage.index.family, storage.nodes, Env());
        if done.Failure? {
          RowsSettableUpTo(was, graphId, rs, i + 1, target, value, rt, property);
          return Failure(done.error);
        }
        modified := modified + done.value;
        i := i + 1;
      }
      RowsSetSettable(was, graphId, rs, i, target, value, rt, property, Stored(), modified);
      return Success(modified);
    }

    // ----- delete -----

    /** How many edges touch the node: self-loops and parallel edges are each counted once. */
    method CountIncidentEdges(graphId: Uuid, id: Uuid) returns (count: int)
      requires storage.GraphInv()
      ensures count == |storage.edges| - |WithoutIncident(storage.edges, graphId, id)|
    {
      assert EdgesKeyed(storage.edges);
      hide EdgeFamiliesInv, NodeFamiliesInv, ListsEdges, EdgesKeyed;
      var outgoing := storage.GetOutgoingEdges(graphId, id, None);
      var incoming := storage.GetIncomingEdges(graphId, id, None);
      IncidentCount(storage.edges, outgoing.value, incoming.value, graphId, id);
      var ids := CollectEdgeIds(outgoing.value + incoming.value);
      return |ids|;
    }

    /** The first pass: deletes each edge the list names once; stops at one that is not stored. */
    method DeleteNamedEdges(graphId: Uuid, vals: seq<Value>) returns (r: ExecResult<int>)
      requires Valid()
      modifies this, storage
      ensures Valid() && storage.nodes == old(storage.nodes)
      ensures r.Success? <==> KeysIn(graphId, EdgeIdsIn(vals)) <= old(storage.edges).Keys
      ensures r.Success? ==> Gone(old(storage.edges), storage.edges, graphId, EdgeIdsIn(vals))
      ensures r.Success? ==> r.value == |EdgeIdsIn(vals)|
      ensures r.Success? ==> stats == old(stats).(edgesDeleted := old(stats).edgesDeleted + |old(storage.edges)| - |storage.edges|)
    {
      hide EdgeFamiliesInv, NodeFamiliesInv, FamilyOk, EnvOk, EdgeIdsIn, KeysIn, Gone, NodeKey, EdgeKey;
      ghost var was := storage.edges;
      var seen: set<Uuid> := {};
      NothingNamed(graphId, vals);
      NothingGone(was, graphId);
      var i := 0;
      while i < |vals|
        invariant 0 <= i <= |vals| && Valid() && storage.nodes == old(storage.nodes)
        invariant seen == EdgeIdsIn(vals[..i]) && Gone(was, storage.edges, graphId, seen)
        invariant stats == old(stats).(edgesDeleted := old(stats).edgesDeleted + |was| - |storage.edges|)
      {
        EdgeIdsStep(vals, i);
        if vals[i].EdgeVal? && vals[i].edgeId !in seen {
          var id := vals[i].edgeId;
          GoneStep(was, storage.edges, graphId, seen, id);
          var deleted := DeleteOneEdge(graphId, id);
          if deleted.Failure? {
            NotAllNamed(graphId, EdgeIdsIn(vals), id, was.Keys);
            return Failure(StorageFailure(deleted.error));
          }
          seen := seen + {id};
        }
        i := i + 1;
      }
      assert vals[..i] == vals;
      GoneIs(was, storage.edges, graphId, seen);
      return Success(|seen|);
    }

    /** One edge of the first pass. */
    method DeleteOneEdge(graphId: Uuid, id: Uuid) returns (r: StorageResult<()>)
      requires Valid()
      modifies this, storage
      ensures Valid() && storage.nodes == old(storage.nodes)
      ensures r.Success? <==> NodeKey(graphId, id) in old(storage.edges)
      ensures r.Success? ==> storage.edges == old(storage.edges) - {NodeKey(graphId, id)}
      ensures r.Success? ==> stats == old(stats).(edgesDeleted := old(stats).edgesDeleted + |old(storage.edges)| - |storage.edges|)
    {
      hide EdgeFamiliesInv, NodeFamiliesInv, FamilyOk, EnvOk, NodeKey, EdgeKey;
      SameKey(graphId, id);
      OneLess(storage.edges, NodeKey(graphId, id));
      r := storage.DeleteEdge(graphId, id);
      if r.Success? {
        stats := stats.(edgesDeleted := stats.edgesDeleted + 1);
      }
    }

    /** The second pass: unindexes and deletes each node the list names once, with the edges at it. */
    method DeleteNamedNodes(graphId: Uuid, vals: seq<Value>) returns (r: ExecResult<int>)
      requires Valid()
      modifies this, storage, storage.index
      ensures Valid()
      ensures r.Success? <==> KeysIn(graphId, NodeIdsIn(vals)) <= old(storage.nodes).Keys
      ensures r.Success? ==> Cascaded(old(Stored()), old(stats), Stored(), stats, graphId, NodeIdsIn(vals))
      ensures r.Success? ==> r.value == |NodeIdsIn(vals)|
      ensures Keeps(old(storage.index.family), old(storage.nodes), storage.index.family, storage.nodes, Env())
    {
      hide Valid, NodeIdsIn, KeysIn, NodeKey, Keeps, Cascaded;
      ghost var was := Stored();
      var seen: set<Uuid> := {};
      NothingNamed(graphId, vals);
      NothingCascaded(was, stats, graphId);
      KeepsReflexive(storage.index.family, storage.nodes, Env());
      var i := 0;
      while i < |vals|
        invariant 0 <= i <= |vals| && Valid()
        invariant seen == NodeIdsIn(vals[..i])
        invariant Cascaded(was, old(stats), Stored(), stats, graphId, seen)
        invariant Keeps(old(storage.index.family), old(storage.nodes), storage.index.family, storage.nodes, Env())
      {
        NodeIdsStep(vals, i);
        if vals[i].NodeVal? && vals[i].nodeId !in seen {
          var id := vals[i].nodeId;
          label Before:
          var deleted := DeleteNodeOnce(graphId, id, was, old(stats), seen);
          KeepsTransitive(old(storage.index.family), old(storage.nodes), old@Before(storage.index.family),
                          old@Before(storage.nodes), storage.index.family, storage.nodes, Env());
          if deleted.Failure? {
            NotAllNamed(graphId, NodeIdsIn(vals), id, old(storage.nodes).Keys);
            return Failure(StorageFailure(deleted.error));
          }
          seen := seen + {id};
        }
        i := i + 1;
      }
      assert vals[..i] == vals;
      CascadedIs(was, old(stats), Stored(), stats, graphId, seen);
      return Success(|seen|);
    }

    /** One node of the second pass, after the nodes in `seen`. */
    method DeleteNodeOnce(graphId: Uuid, id: Uuid, ghost was: Tables, ghost before: ExecStats, ghost seen: set<Uuid>)
      returns (r: StorageResult<()>)
      requires Valid() && Cascaded(was, before, Stored(), stats, graphId, seen) && id !in seen
      modifies this, storage, storage.index
      ensures Valid()
      ensures r.Success? <==> NodeKey(graphId, id) in was.nodes
      ensures r.Success? ==> Cascaded(was, before, Stored(), stats, graphId, seen + {id})
      ensures Keeps(old(storage.index.family), old(storage.nodes), storage.index.family, storage.nodes, Env())
    {
      hide Valid, Cascaded, Keeps, NodeKey, WithoutIncident;
      CascadeStep(was, before, Stored(), stats, graphId, seen, id);
      r := UnindexAndDelete(graphId, id);
    }

    /** The node leaves the indexes, then the store, with the edges at it. */
    method UnindexAndDelete(graphId: Uuid, id: Uuid) returns (r: StorageResult<()>)
      requires Valid()
      modifies this, storage, storage.index
      ensures Valid()
      ensures r.Success? <==> NodeKey(graphId, id) in old(storage.nodes)
      ensures r.Success? ==> storage.nodes == old(storage.nodes) - {NodeKey(graphId, id)}
      ensures r.Success? ==> storage.edges == WithoutIncident(old(storage.edges), graphId, id)
      ensures r.Success? ==>
                storage.index.family == UnindexAll(old(storage.index.family), old(storage.nodes)[NodeKey(graphId, id)], Env())
      ensures r.Success? ==>
                stats == old(stats).(nodesDeleted := old(stats).nodesDeleted + 1,
                                     edgesDeleted := old(stats).edgesDeleted + |old(storage.edges)| - |storage.edges|)
      ensures Keeps(old(storage.index.family), old(storage.nodes), storage.index.family, storage.nodes, Env())
    {
      hide EdgeFamiliesInv, FamilyOk, EnvOk, Keeps, WithoutIncident, IndexInv, UnindexAll;
      KeepsReflexive(storage.index.family, storage.nodes, Env());
      var got := storage.GetNode(graphId, id);
      if got.Success? {
        UnindexKeeps(storage.index.family, storage.nodes, NodeKey(graphId, id), Env());
        UnindexNodeOnDelete(got.value);
      }
      var incident := CountIncidentEdges(graphId, id);
      r := storage.DeleteNode(graphId, id);
      if r.Success? {
        stats := stats.(nodesDeleted := stats.nodesDeleted + 1, edgesDeleted := stats.edgesDeleted + incident);
      }
    }

    /**
     Deletes what the rows name: edges first, then nodes with the edges at them.
     A success removes exactly the named edges, the named nodes and every edge at
     one of those, and reports exactly how far the two tables shrank.
     */
    method ExecDeleteNodes(graphId: Uuid, rs: ResultSet, targets: seq<string>) returns (r: ExecResult<int>)
      requires Valid() && RowsOk(rs)
      modifies this, storage, storage.index
      ensures Valid()
      ensures var vals := ValuesToDelete(rs, |rs.rows|, targets);
              && (r.Success? <==> AllStored(old(Stored()), graphId, vals))
              && (r.Success? ==> Deleted(old(Stored()), old(stats), Stored(), stats, graphId, vals)
                                 && r.value == |EdgeIdsIn(vals)| + |NodeIdsIn(vals)|)
      ensures Keeps(old(storage.index.family), old(storage.nodes), storage.index.family, storage.nodes, Env())
    {
      hide Valid, NodeIdsIn, EdgeIdsIn, KeysIn, Keeps, Gone, Cascaded, Deleted, ValuesToDelete;
      KeepsReflexive(storage.index.family, storage.nodes, Env());
      var vals := CollectValues(rs, targets);
      var edges := DeleteNamedEdges(graphId, vals);
      if edges.Failure? {
        return edges;
      }
      ghost var between, stats' := Stored(), stats;
      var nodes := DeleteNamedNodes(graphId, vals);
      if nodes.Failure? {
        return nodes;
      }
      BothPasses(old(Stored()), old(stats), between, stats', Stored(), stats, graphId, vals);
      return Success(edges.value + nodes.value);
    }

    // ----- indexes -----

    /** Records the index and, for a node index, goes through the nodes it is to start with. */
    method ExecCreateIndex(graphId: Uuid, name: string, unique: bool, entityType: EntityType, covering: Option<string>,
                           propertyNames: seq<string>)
      requires Valid()
      modifies storage.index
      ensures Valid()
      ensures var def := IndexDefinition(name, graphId, entityType, propertyNames, unique);
              storage.index.family == Created(old(storage.index.family), def,
                if entityType.NodeEntity? then Backfilled(storage.nodes, graphId, covering) else [], Env())
    {
      hide EdgeFamiliesInv, NodeFamiliesInv, FamilyOk, EnvOk, HasIndexed, NodeEntry, Clashes, MetaKey, NodesOf, WithLabel;
      var def := IndexDefinition(name, graphId, entityType, propertyNames, unique);
      storage.index.CreateIndex(def);
      if entityType.NodeEntity? {
        var list: seq<Node>;
        if covering.Some? {
          var scanned := storage.ScanNodesByLabel(graphId, covering.value);
          list := scanned.value;
        } else {
          list := storage.ScanNodes(graphId);
        }
        BackfillNodes(def, list);
      }
    }

    /** Gives a new index the entries of the nodes that have one of its properties; errors are ignored. */
    method BackfillNodes(def: IndexDefinition, list: seq<Node>)
      requires storage.index.Valid()
      modifies storage.index
      ensures storage.index.Valid() && storage.index.family == Backfill(old(storage.index.family), def, list, Env())
    {
      hide FamilyOk, EnvOk, HasIndexed, NodeEntry, Clashes;
      var i := 0;
      while i < |list|
        invariant 0 <= i <= |list| && storage.index.Valid()
        invariant storage.index.family == Backfill(old(storage.index.family), def, list[..i], Env())
      {
        assert list[..i + 1][..i] == list[..i];
        if HasIndexed(def, list[i]) {
          var ignored := storage.index.IndexNode(def, list[i]);
        }
        i := i + 1;
      }
      assert list[..i] == list;
    }

    method ExecDropIndex(graphId: Uuid, name: string)
      requires Valid()
      modifies storage.index
      ensures Valid() && storage.index.family == Dropped(old(storage.index.family), graphId, name, Env())
    {
      storage.index.DropIndex(graphId, name);
    }

    // ----- expand -----

    /** The edges an expansion follows from a node, each once: a self-loop is not met from both ends. */
    method ExpandEdges(graphId: Uuid, id: Uuid, direction: Direction, filter: Option<string>) returns (list: seq<Edge>)
      requires storage.GraphInv()
      ensures ListsEdges(list, storage.edges, e => Followed(e, graphId, id, direction, filter))
    {
      hide EdgeFamiliesInv, NodeFamiliesInv, ListsEdges, NoRepeats, Leaves, Enters;
      match direction
      case Outgoing =>
        var got := storage.GetOutgoingEdges(graphId, id, filter);
        SameList(got.value, storage.edges, e => Leaves(e, graphId, id, filter), e => Followed(e, graphId, id, direction, filter));
        return got.value;
      case Incoming =>
        var got := storage.GetIncomingEdges(graphId, id, filter);
        SameList(got.value, storage.edges, e => Enters(e, graphId, id, filter), e => Followed(e, graphId, id, direction, filter));
        return got.value;
      case Undirected =>
        var outgoing := storage.GetOutgoingEdges(graphId, id, filter);
        var incoming := storage.GetIncomingEdges(graphId, id, filter);
        EndsAgree(storage.edges, outgoing.value, incoming.value, graphId, id, filter);
        list := Merge(outgoing.value, incoming.value);
        BothListed(storage.edges, outgoing.value, incoming.value, list, graphId, id, filter);
    }

    /** One source row: each followed edge with the node at its other end, where that node is stored and accepted. */
    method ExpandNode(graphId: Uuid, id: Uuid, direction: Direction, filter: Option<string>, targetLabels: seq<string>)
      returns (hops: seq<Hop>)
      requires storage.GraphInv()
      ensures forall h :: h in hops <==> Reaches(h, storage.nodes, storage.edges, graphId, id, direction, filter, targetLabels)
      ensures forall i, j :: 0 <= i < j < |hops| ==> hops[i].edge != hops[j].edge
    {
      HopsReach(storage.nodes, storage.nodeLabels, storage.edges, graphId, id, direction, filter, targetLabels);
      hide IsHop, Reaches, EdgeFamiliesInv, NodeFamiliesInv;
      var list := ExpandEdges(graphId, id, direction, filter);
      hops := HopsAlong(list, graphId, id, direction, filter, targetLabels);
    }

    /** The loop over the followed edges. */
    method HopsAlong(list: seq<Edge>, graphId: Uuid, id: Uuid, direction: Direction, ghost filter: Option<string>,
                     targetLabels: seq<string>) returns (hops: seq<Hop>)
      requires storage.GraphInv()
      requires ListsEdges(list, storage.edges, e => Followed(e, graphId, id, direction, filter))
      ensures forall h :: h in hops <==> IsHop(h, storage.nodes, storage.edges, graphId, id, direction, filter, targetLabels)
      ensures forall i, j :: 0 <= i < j < |hops| ==> hops[i].edge != hops[j].edge
    {
      hide EdgeFamiliesInv, NodeFamiliesInv, Followed, NodeKey, EdgeKey, AcceptsNeighbour;
      hops := [];
      var i := 0;
      while i < |list|
        invariant 0 <= i <= |list|
        invariant forall h :: h in hops <==> h.edge in list[..i] && LeadsTo(h, storage.nodes, graphId, id, direction, targetLabels)
        invariant forall a, b :: 0 <= a < b < |hops| ==> hops[a].edge != hops[b].edge
      {
        assert list[..i + 1] == list[..i] + [list[i]];
        var target := storage.GetNode(graphId, OtherEnd(list[i], id, direction));
        if target.Success? && AcceptsNeighbour(target.value, targetLabels) {
          assert forall a :: 0 <= a < |hops| ==> hops[a] in hops;
          hops := hops + [Hop(list[i], target.value)];
        }
        i := i + 1;
      }
      assert list[..i] == list;
    }
  }

  // ----- steps of the loops -----

  lemma NothingSet(t: Tables, graphId: Uuid, list: seq<Assignment>, property: string)
    ensures SetAll(t, graphId, list[..0], property) == Some(t) && WriteCount(list[..0]) == 0
  {
  }

  lemma NoRowsSet(t: Tables, graphId: Uuid, rs: ResultSet, target: Option<string>, e: Expression, rt: Runtime,
                  property: string)
    requires RowsOk(rs)
    ensures RowsSet(t, graphId, rs, 0, target, e, rt, property, t, 0)
  {
  }

  lemma RowsSetSettable(t: Tables, graphId: Uuid, rs: ResultSet, n: nat, target: Option<string>, e: Expression, rt: Runtime,
                        property: string, now: Tables, count: int)
    requires RowsOk(rs) && n <= |rs.rows| && RowsSet(t, graphId, rs, n, target, e, rt, property, now, count)
    ensures RowsSettable(t, graphId, rs, n, target, e, rt, property)
  {
    hide Assignments, SetAll;
  }

  /** What one more row does to the assignments so far. */
  lemma {:induction false} RowsSetStep(t: Tables, graphId: Uuid, rs: ResultSet, n: nat, target: Option<string>,
                                       e: Expression, rt: Runtime, property: string, now: Tables, count: int)
    requires RowsOk(rs) && n < |rs.rows| && RowsSet(t, graphId, rs, n, target, e, rt, property, now, count)
    ensures var v := Evaluate(e, RowOf(rs, n), rt);
            && (v.Failure? ==> !RowsSettable(t, graphId, rs, n + 1, target, e, rt, property))
            && (v.Success? ==>
                  var more := Assign(Named(RowOf(rs, n), target), v.value);
                  match SetAll(now, graphId, more, property)
                  case None => !RowsSettable(t, graphId, rs, n + 1, target, e, rt, property)
                  case Some(next) => RowsSet(t, graphId, rs, n + 1, target, e, rt, property, next, count + WriteCount(more)))
  {
    hide Evaluate, SetAll, Named, WriteCount;
    var list := Assignments(rs, n, target, e, rt).value;
    var v := Evaluate(e, RowOf(rs, n), rt);
    if v.Success? {
      var more := Assign(Named(RowOf(rs, n), target), v.value);
      SetAllConcat(t, graphId, list, more, property);
      WriteCountConcat(list, more);
    }
  }

  /** Once a row fails, the whole statement does. */
  lemma {:induction false} RowsSettableUpTo(t: Tables, graphId: Uuid, rs: ResultSet, n: nat, target: Option<string>,
                                            e: Expression, rt: Runtime, property: string)
    requires RowsOk(rs) && n <= |rs.rows| && !RowsSettable(t, graphId, rs, n, target, e, rt, property)
    ensures !RowsSettable(t, graphId, rs, |rs.rows|, target, e, rt, property)
    decreases |rs.rows| - n
  {
    hide Evaluate, SetAll, Named;
    if n < |rs.rows| {
      var list, next := Assignments(rs, n, target, e, rt), Assignments(rs, n + 1, target, e, rt);
      if next.Success? {
        var v := Evaluate(e, RowOf(rs, n), rt).value;
        SetAllConcat(t, graphId, list.value, Assign(Named(RowOf(rs, n), target), v), property);
      }
      RowsSettableUpTo(t, graphId, rs, n + 1, target, e, rt, property);
    }
  }

  method CollectEdgeIds(list: seq<Edge>) returns (ids: set<Uuid>)
    ensures ids == EdgeIds(list)
  {
    ids := {};
    var i := 0;
    while i < |list|
      invariant 0 <= i <= |list| && ids == EdgeIds(list[..i])
    {
      assert list[..i + 1] == list[..i] + [list[i]];
      ids := ids + {list[i].id};
      i := i + 1;
    }
    assert list[..i] == list;
  }

  lemma NothingNamed(graphId: Uuid, vals: seq<Value>)
    ensures NodeIdsIn(vals[..0]) == {} && EdgeIdsIn(vals[..0]) == {} && KeysIn(graphId, {}) == {}
  {
  }

  lemma EdgeIdsStep(vals: seq<Value>, i: nat)
    requires i < |vals|
    ensures vals[i].EdgeVal? ==> EdgeIdsIn(vals[..i + 1]) == EdgeIdsIn(vals[..i]) + {vals[i].edgeId}
    ensures !vals[i].EdgeVal? || vals[i].edgeId in EdgeIdsIn(vals[..i]) ==> EdgeIdsIn(vals[..i + 1]) == EdgeIdsIn(vals[..i])
    ensures vals[i].EdgeVal? ==> vals[i].edgeId in EdgeIdsIn(vals)
  {
    assert vals[..i + 1] == vals[..i] + [vals[i]];
    assert vals[i] in vals;
  }

  lemma NodeIdsStep(vals: seq<Value>, i: nat)
    requires i < |vals|
    ensures vals[i].NodeVal? ==> NodeIdsIn(vals[..i + 1]) == NodeIdsIn(vals[..i]) + {vals[i].nodeId}
    ensures !vals[i].NodeVal? || vals[i].nodeId in NodeIdsIn(vals[..i]) ==> NodeIdsIn(vals[..i + 1]) == NodeIdsIn(vals[..i])
    ensures vals[i].NodeVal? ==> vals[i].nodeId in NodeIdsIn(vals)
  {
    assert vals[..i + 1] == vals[..i] + [vals[i]];
    assert vals[i] in vals;
  }

  lemma SameKey(graphId: Uuid, id: Uuid)
    ensures NodeKey(graphId, id) == EdgeKey(graphId, id)
  {
  }

  lemma KeysInStep(graphId: Uuid, ids: set<Uuid>, id: Uuid)
    requires id !in ids
    ensures KeysIn(graphId, ids + {id}) == KeysIn(graphId, ids) + {NodeKey(graphId, id)}
    ensures NodeKey(graphId, id) !in KeysIn(graphId, ids)
  {
    forall x | x in ids ensures NodeKey(graphId, x) != NodeKey(graphId, id) {
      assert NodeKey(graphId, x)[16..] == x && NodeKey(graphId, id)[16..] == id;
    }
  }

  lemma OneLess<V>(m: map<Bytes, V>, k: Bytes)
    ensures k in m ==> |m - {k}| == |m| - 1
  {
    if k in m {
      SizeWithout(m, {k});
    }
  }

  /** `now` is the table without the ids' records, all of which it had. */
  ghost predicate Gone<V(!new)>(was: map<Bytes, V>, now: map<Bytes, V>, graphId: Uuid, ids: set<Uuid>) {
    KeysIn(graphId, ids) <= was.Keys && now == was - KeysIn(graphId, ids)
  }

  lemma NothingGone<V(!new)>(was: map<Bytes, V>, graphId: Uuid)
    ensures Gone(was, was, graphId, {})
  {
  }

  lemma GoneIs<V(!new)>(was: map<Bytes, V>, now: map<Bytes, V>, graphId: Uuid, ids: set<Uuid>)
    requires Gone(was, now, graphId, ids)
    ensures KeysIn(graphId, ids) <= was.Keys && now == was - KeysIn(graphId, ids)
  {
  }

  lemma GoneStep<V(!new)>(was: map<Bytes, V>, now: map<Bytes, V>, graphId: Uuid, ids: set<Uuid>, id: Uuid)
    requires Gone(was, now, graphId, ids) && id !in ids
    ensures var k := NodeKey(graphId, id);
            && (k in now <==> k in was)
            && (k in now ==> Gone(was, now - {k}, graphId, ids + {id}))
  {
    hide NodeKey, KeysIn;
    var k := NodeKey(graphId, id);
    KeysInStep(graphId, ids, id);
    if k in now {
      assert (was - KeysIn(graphId, ids)) - {k} == was - (KeysIn(graphId, ids) + {k});
    }
  }

  lemma NotAllNamed(graphId: Uuid, ids: set<Uuid>, id: Uuid, keys: set<Bytes>)
    requires id in ids && NodeKey(graphId, id) !in keys
    ensures !(KeysIn(graphId, ids) <= keys)
  {
    assert NodeKey(graphId, id) in KeysIn(graphId, ids);
  }

  /** The tables and counts after the nodes were deleted with the edges at them. */
  ghost predicate Cascaded(was: Tables, stats: ExecStats, now: Tables, stats': ExecStats, graphId: Uuid, ids: set<Uuid>) {
    && Gone(was.nodes, now.nodes, graphId, ids)
    && now.edges == WithoutIncidentTo(was.edges, graphId, ids)
    && stats' == stats.(nodesDeleted := stats.nodesDeleted + |was.nodes| - |now.nodes|,
                        edgesDeleted := stats.edgesDeleted + |was.edges| - |now.edges|)
  }

  /** Every edge and node the values name is stored. */
  ghost predicate AllStored(t: Tables, graphId: Uuid, vals: seq<Value>) {
    KeysIn(graphId, EdgeIdsIn(vals)) <= t.edges.Keys && KeysIn(graphId, NodeIdsIn(vals)) <= t.nodes.Keys
  }

  /**
   Exactly the named nodes are gone, and exactly the named edges and the edges
   at a named node; the counts grew by how far the two tables shrank.
   */
  ghost predicate Deleted(was: Tables, stats: ExecStats, now: Tables, stats': ExecStats, graphId: Uuid, vals: seq<Value>) {
    && now.nodes == was.nodes - KeysIn(graphId, NodeIdsIn(vals))
    && now.edges == WithoutIncidentTo(was.edges - KeysIn(graphId, EdgeIdsIn(vals)), graphId, NodeIdsIn(vals))
    && stats' == stats.(nodesDeleted := stats.nodesDeleted + |was.nodes| - |now.nodes|,
                        edgesDeleted := stats.edgesDeleted + |was.edges| - |now.edges|)
  }

  lemma BothPasses(was: Tables, stats: ExecStats, between: Tables, stats': ExecStats, now: Tables, stats'': ExecStats,
                   graphId: Uuid, vals: seq<Value>)
    requires between.nodes == was.nodes && Gone(was.edges, between.edges, graphId, EdgeIdsIn(vals))
    requires stats' == stats.(edgesDeleted := stats.edgesDeleted + |was.edges| - |between.edges|)
    requires Cascaded(between, stats', now, stats'', graphId, NodeIdsIn(vals))
    ensures Deleted(was, stats, now, stats'', graphId, vals)
  {
    hide WithoutIncidentTo, KeysIn, NodeIdsIn, EdgeIdsIn;
  }

  method CollectValues(rs: ResultSet, targets: seq<string>) returns (vals: seq<Value>)
    requires RowsOk(rs)
    ensures vals == ValuesToDelete(rs, |rs.rows|, targets)
  {
    hide TargetValues;
    vals := [];
    var i := 0;
    while i < |rs.rows|
      invariant 0 <= i <= |rs.rows| && vals == ValuesToDelete(rs, i, targets)
    {
      vals := vals + TargetValues(RowOf(rs, i), targets);
      i := i + 1;
    }
  }

  lemma NothingCascaded(was: Tables, stats: ExecStats, graphId: Uuid)
    ensures Cascaded(was, stats, was, stats, graphId, {})
  {
  }

  lemma CascadedIs(was: Tables, stats: ExecStats, now: Tables, stats': ExecStats, graphId: Uuid, ids: set<Uuid>)
    requires Cascaded(was, stats, now, stats', graphId, ids)
    ensures Gone(was.nodes, now.nodes, graphId, ids) && KeysIn(graphId, ids) <= was.nodes.Keys
    ensures now.edges == WithoutIncidentTo(was.edges, graphId, ids)
    ensures stats' == stats.(nodesDeleted := stats.nodesDeleted + |was.nodes| - |now.nodes|,
                             edgesDeleted := stats.edgesDeleted + |was.edges| - |now.edges|)
  {
  }

  lemma CascadeStep(was: Tables, stats: ExecStats, now: Tables, stats': ExecStats, graphId: Uuid, ids: set<Uuid>, id: Uuid)
    requires Cascaded(was, stats, now, stats', graphId, ids) && id !in ids
    ensures var k := NodeKey(graphId, id);
            var next := Tables(now.nodes - {k}, WithoutIncident(now.edges, graphId, id));
            && (k in now.nodes <==> k in was.nodes)
            && (k in now.nodes ==> Cascaded(was, stats, next,
                  stats'.(nodesDeleted := stats'.nodesDeleted + 1,
                          edgesDeleted := stats'.edgesDeleted + |now.edges| - |next.edges|), graphId, ids + {id}))
  {
    hide NodeKey, Gone, WithoutIncident, WithoutIncidentTo;
    GoneStep(was.nodes, now.nodes, graphId, ids, id);
    OneLess(now.nodes, NodeKey(graphId, id));
    OneMoreIncident(was.edges, graphId, ids, id);
  }

  lemma OneMoreIncident(edges: EdgeTable, graphId: Uuid, ids: set<Uuid>, id: Uuid)
    ensures WithoutIncident(WithoutIncidentTo(edges, graphId, ids), graphId, id) == WithoutIncidentTo(edges, graphId, ids + {id})
  {
  }

  lemma SameGraph(nodes: NodeTable, node: Node)
    requires NodesKeyed(nodes) && NodeOf(node) in nodes
    ensures nodes[NodeOf(node)].graphId == node.graphId
  {
    NodeOfInjective(nodes[NodeOf(node)], node);
  }

  lemma NodeParts(nodes: NodeTable, nodeLabels: map<Bytes, Bytes>, graphId: Uuid, id: Uuid)
    requires NodeFamiliesInv(nodes, nodeLabels) && NodeKey(graphId, id) in nodes
    ensures NodeOf(nodes[NodeKey(graphId, id)]) == NodeKey(graphId, id)
  {
    hide IndexInv;
  }

  lemma EdgeParts(edges: EdgeTable, adjOut: map<Bytes, Uuid>, adjIn: map<Bytes, Uuid>, edgeLabels: map<Bytes, Bytes>,
                  graphId: Uuid, id: Uuid)
    requires EdgeFamiliesInv(edges, adjOut, adjIn, edgeLabels) && EdgeKey(graphId, id) in edges
    ensures EdgeOf(edges[EdgeKey(graphId, id)]) == EdgeKey(graphId, id)
  {
    hide IndexInv;
  }

  // ----- expansion -----

  datatype Direction = Outgoing | Incoming | Undirected

  datatype Hop = Hop(edge: Edge, target: Node)

  predicate Followed(e: Edge, graphId: Uuid, id: Uuid, direction: Direction, filter: Option<string>) {
    match direction
    case Outgoing => Leaves(e, graphId, id, filter)
    case Incoming => Enters(e, graphId, id, filter)
    case Undirected => Leaves(e, graphId, id, filter) || Enters(e, graphId, id, filter)
  }

  function OtherEnd(e: Edge, id: Uuid, direction: Direction): Uuid {
    match direction
    case Outgoing => e.target
    case Incoming => e.source
    case Undirected => if e.source == id then e.target else e.source
  }

  /** The hop ends at the stored node at the edge's other end. */
  predicate LeadsTo(h: Hop, nodes: NodeTable, graphId: Uuid, id: Uuid, direction: Direction, targetLabels: seq<string>) {
    var k := NodeKey(graphId, OtherEnd(h.edge, id, direction));
    k in nodes && nodes[k] == h.target && AcceptsNeighbour(h.target, targetLabels)
  }

  predicate IsHop(h: Hop, nodes: NodeTable, edges: EdgeTable, graphId: Uuid, id: Uuid, direction: Direction,
                  filter: Option<string>, targetLabels: seq<string>)
  {
    && EdgeOf(h.edge) in edges && edges[EdgeOf(h.edge)] == h.edge
    && Followed(h.edge, graphId, id, direction, filter)
    && LeadsTo(h, nodes, graphId, id, direction, targetLabels)
  }

  /**
   A stored edge of the graph that leaves the node, enters it, or does either, and
   the stored node at its far end; of a wanted edge label, and with one of the
   wanted labels where any are.
   */
  ghost predicate Reaches(h: Hop, nodes: NodeTable, edges: EdgeTable, graphId: Uuid, id: Uuid, direction: Direction,
                          filter: Option<string>, targetLabels: seq<string>)
  {
    && EdgeOf(h.edge) in edges && edges[EdgeOf(h.edge)] == h.edge && h.edge.graphId == graphId
    && NodeOf(h.target) in nodes && nodes[NodeOf(h.target)] == h.target && h.target.graphId == graphId
    && (direction.Outgoing? ==> h.edge.source == id && h.edge.target == h.target.id)
    && (direction.Incoming? ==> h.edge.target == id && h.edge.source == h.target.id)
    && (direction.Undirected? ==> || (h.edge.source == id && h.edge.target == h.target.id)
                                  || (h.edge.target == id && h.edge.source == h.target.id))
    && (filter.Some? ==> SameLabelKey(filter.value, h.edge.edgeLabel))
    && (targetLabels == [] || exists l :: l in targetLabels && l in h.target.labels)
  }

  lemma HopReaches(h: Hop, nodes: NodeTable, edges: EdgeTable, graphId: Uuid, id: Uuid, direction: Direction,
                   filter: Option<string>, targetLabels: seq<string>)
    requires NodesKeyed(nodes)
    ensures IsHop(h, nodes, edges, graphId, id, direction, filter, targetLabels) <==>
              Reaches(h, nodes, edges, graphId, id, direction, filter, targetLabels)
  {
    hide SameLabelKey, NodeKey, EdgeKey;
    var k := NodeKey(graphId, OtherEnd(h.edge, id, direction));
    if k in nodes && nodes[k] == h.target {
      KeyParts(h.target, graphId, OtherEnd(h.edge, id, direction));
    }
  }

  lemma KeyParts(n: Node, graphId: Uuid, id: Uuid)
    requires NodeOf(n) == NodeKey(graphId, id)
    ensures n.graphId == graphId && n.id == id
  {
    assert NodeOf(n)[..16] == n.graphId && NodeOf(n)[16..] == n.id;
    assert NodeKey(graphId, id)[..16] == graphId && NodeKey(graphId, id)[16..] == id;
  }

  lemma HopsReach(nodes: NodeTable, nodeLabels: map<Bytes, Bytes>, edges: EdgeTable, graphId: Uuid, id: Uuid,
                  direction: Direction, filter: Option<string>, targetLabels: seq<string>)
    requires NodeFamiliesInv(nodes, nodeLabels)
    ensures forall h :: IsHop(h, nodes, edges, graphId, id, direction, filter, targetLabels) <==>
                        Reaches(h, nodes, edges, graphId, id, direction, filter, targetLabels)
  {
    assert NodesKeyed(nodes);
    hide NodeFamiliesInv, IsHop, Reaches, NodesKeyed;
    forall h ensures IsHop(h, nodes, edges, graphId, id, direction, filter, targetLabels) <==>
                     Reaches(h, nodes, edges, graphId, id, direction, filter, targetLabels)
    {
      HopReaches(h, nodes, edges, graphId, id, direction, filter, targetLabels);
    }
  }

  lemma SameList(list: seq<Edge>, edges: EdgeTable, a: Edge -> bool, b: Edge -> bool)
    requires ListsEdges(list, edges, a) && forall e :: a(e) == b(e)
    ensures ListsEdges(list, edges, b)
  {
    hide EdgeOf;
  }

  ghost predicate NoRepeats(list: seq<Edge>) {
    forall i, j :: 0 <= i < j < |list| ==> list[i] != list[j]
  }

  /** Outgoing edges, then the incoming ones whose id was not among them. */
  method Merge(outgoing: seq<Edge>, incoming: seq<Edge>) returns (list: seq<Edge>)
    requires NoRepeats(outgoing) && NoRepeats(incoming)
    requires forall e, f :: e in incoming && f in outgoing && e.id == f.id ==> e == f
    ensures NoRepeats(list) && forall e :: e in list <==> e in outgoing || e in incoming
  {
    var ids := CollectEdgeIds(outgoing);
    list := outgoing;
    var i := 0;
    while i < |incoming|
      invariant 0 <= i <= |incoming| && NoRepeats(list)
      invariant forall e :: e in list <==> e in outgoing || e in incoming[..i]
    {
      assert incoming[..i + 1] == incoming[..i] + [incoming[i]];
      assert incoming[i] in incoming && incoming[i] !in incoming[..i];
      if incoming[i].id !in ids {
        assert incoming[i] !in outgoing;
        assert forall a :: 0 <= a < |list| ==> list[a] in list;
        list := list + [incoming[i]];
      } else {
        var f :| f in outgoing && f.id == incoming[i].id;
        assert incoming[i] in outgoing;
      }
      i := i + 1;
    }
    assert incoming[..i] == incoming;
  }

  /** A node's edges are told apart by their ids. */
  lemma EndsAgree(edges: EdgeTable, outgoing: seq<Edge>, incoming: seq<Edge>, graphId: Uuid, id: Uuid,
                  filter: Option<string>)
    requires ListsEdges(outgoing, edges, e => Leaves(e, graphId, id, filter))
    requires ListsEdges(incoming, edges, e => Enters(e, graphId, id, filter))
    ensures NoRepeats(outgoing) && NoRepeats(incoming)
    ensures forall e, f :: e in incoming && f in outgoing && e.id == f.id ==> e == f
  {
  }

  lemma BothListed(edges: EdgeTable, outgoing: seq<Edge>, incoming: seq<Edge>, list: seq<Edge>, graphId: Uuid, id: Uuid,
                   filter: Option<string>)
    requires ListsEdges(outgoing, edges, e => Leaves(e, graphId, id, filter))
    requires ListsEdges(incoming, edges, e => Enters(e, graphId, id, filter))
    requires NoRepeats(list) && forall e :: e in list <==> e in outgoing || e in incoming
    ensures ListsEdges(list, edges, e => Followed(e, graphId, id, Undirected, filter))
  {
    hide EdgeOf, Leaves, Enters;
  }
}
