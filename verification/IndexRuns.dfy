/** Index coherence over whole runs of node writes, node deletions, and index and graph definitions. */
module IndexRuns {
  import opened Bytes
  import opened OrderedStore
  import opened Wrappers
  import opened Values
  import opened GraphKeys
  import opened SecondaryIndex
  import opened GraphStore
  import opened PropertyIndex
  import opened StorageEngines
  import opened IndexScans
  import opened IndexMaintenance

  datatype State = State(family: IndexFamily, nodes: NodeTable)

  datatype Step =
    | WriteNode(node: Node)
    | RemoveNode(graphId: Uuid, id: Uuid)
    | CreateIndex(def: IndexDefinition, covering: Option<string>)
    | DropIndex(graphId: Uuid, name: string)
    | DropGraph(graphId: Uuid)

  ghost predicate Inv(s: State, env: Env) {
    FamilyOk(s.family, env) && NodesKeyed(s.nodes) && NoOrphans(s.family, env)
  }

  /** The nodes an index creation goes through: those with its label, or all of the graph. */
  function Backfilled(nodes: NodeTable, graphId: Uuid, covering: Option<string>): seq<Node> {
    match covering
    case Some(name) => WithLabel(NodesOf(nodes, graphId), name)
    case None => NodesOf(nodes, graphId)
  }

  /** What the executor does to the node table and the index family. */
  ghost function Apply(s: State, step: Step, env: Env): State
    requires EnvOk(env) && Inv(s, env)
  {
    match step
    case WriteNode(node) =>
      var k := NodeOf(node);
      if k in s.nodes then
        FamilyAfterUnindex(s.family, s.nodes[k], env);
        var between := UnindexAll(s.family, s.nodes[k], env);
        State(IndexAll(between, DefsAt(between, node.graphId, env), node, env), s.nodes[k := node])
      else State(IndexAll(s.family, DefsAt(s.family, node.graphId, env), node, env), s.nodes[k := node])
    case RemoveNode(g, id) =>
      var k := NodeKey(g, id);
      if k in s.nodes then State(UnindexAll(s.family, s.nodes[k], env), s.nodes - {k}) else s
    case CreateIndex(def, covering) =>
      if def.entityType.NodeEntity? then
        State(Created(s.family, def, Backfilled(s.nodes, def.graphId, covering), env), s.nodes)
      else State(Created(s.family, def, [], env), s.nodes)
    case DropIndex(g, name) => State(Dropped(s.family, g, name, env), s.nodes)
    case DropGraph(g) => State(WithoutGraph(s.family, g), WithoutGraph(s.nodes, g))
  }

  lemma FamilyAfterUnindex(family: IndexFamily, node: Node, env: Env)
    requires FamilyOk(family, env)
    ensures FamilyOk(UnindexAll(family, node, env), env)
  {
    FamilyAfterRemoval(family, EntriesOf(DefsAt(family, node.graphId, env), node, env), env);
  }

  lemma FamilyAfterIndexAll(family: IndexFamily, node: Node, env: Env)
    requires EnvOk(env) && FamilyOk(family, env)
    ensures FamilyOk(IndexAll(family, DefsAt(family, node.graphId, env), node, env), env)
  {
    IndexAllGrows(family, DefsAt(family, node.graphId, env), node, env);
  }

  lemma NodesKeyedAfter(nodes: NodeTable, node: Node, k: Bytes, g: Uuid)
    requires NodesKeyed(nodes)
    ensures NodesKeyed(nodes[NodeOf(node) := node]) && NodesKeyed(nodes - {k}) && NodesKeyed(WithoutGraph(nodes, g))
  {
    hide NodeOf;
  }

  lemma BackfilledFromGraph(nodes: NodeTable, graphId: Uuid, covering: Option<string>)
    requires NodesKeyed(nodes)
    ensures FromGraph(Backfilled(nodes, graphId, covering), nodes, graphId)
    ensures forall n :: n in Backfilled(nodes, graphId, covering) <==>
              && NodeOf(n) in nodes && nodes[NodeOf(n)] == n && n.graphId == graphId
              && (covering.Some? ==> HasLabelKey(n, covering.value))
  {
    hide NodesOf, WithLabel, NodeOf, StrictlySorted, HasLabelKey;
    NodesOfExactly(nodes, graphId);
    if covering.Some? {
      WithLabelExactly(NodesOf(nodes, graphId), covering.value);
    }
  }

  /** The step can disturb the index: it drops it or its graph, or creates or drops one whose name hashes alike. */
  predicate Touches(step: Step, def: IndexDefinition, env: Env) {
    match step
    case CreateIndex(d, _) => SameHash(def, d.graphId, d.name, env)
    case DropIndex(g, name) => SameHash(def, g, name, env)
    case DropGraph(g) => def.graphId == g
    case _ => false
  }

  lemma WriteStep(s: State, node: Node, env: Env)
    requires EnvOk(env) && Inv(s, env)
    ensures var t := Apply(s, WriteNode(node), env);
            Inv(t, env) && Keeps(s.family, s.nodes, t.family, t.nodes, env)
  {
    var k := NodeOf(node);
    var t := Apply(s, WriteNode(node), env);
    hide EnvOk, FamilyOk, NodesKeyed, NoOrphans, NodeOf, UnindexAll, IndexAll, DefsAt, Maintained;
    NodesKeyedAfter(s.nodes, node, k, node.graphId);
    if k in s.nodes {
      RewriteKeeps(s.family, s.nodes, node, env);
      FamilyAfterIndexAll(UnindexAll(s.family, s.nodes[k], env), node, env);
    } else {
      IndexKeeps(s.family, s.nodes, node, env);
      FamilyAfterIndexAll(s.family, node, env);
    }
  }

  lemma RemoveStep(s: State, g: Uuid, id: Uuid, env: Env)
    requires EnvOk(env) && Inv(s, env)
    ensures var t := Apply(s, RemoveNode(g, id), env);
            Inv(t, env) && Keeps(s.family, s.nodes, t.family, t.nodes, env)
  {
    var k := NodeKey(g, id);
    hide EnvOk, FamilyOk, NodesKeyed, NoOrphans, NodeKey, UnindexAll, Maintained;
    if k in s.nodes {
      UnindexKeeps(s.family, s.nodes, k, env);
      FamilyAfterUnindex(s.family, s.nodes[k], env);
      NodesKeyedAfter(s.nodes, s.nodes[k], k, g);
    } else {
      KeepsReflexive(s.family, s.nodes, env);
    }
  }

  lemma StepKeepsInv(s: State, step: Step, env: Env)
    requires EnvOk(env) && Inv(s, env)
    ensures Inv(Apply(s, step, env), env)
  {
    match step
    case WriteNode(node) =>
      hide *;
      WriteStep(s, node, env);
    case RemoveNode(g, id) =>
      hide *;
      RemoveStep(s, g, id, env);
    case CreateIndex(def, covering) =>
      hide EnvOk, FamilyOk, NodesKeyed, NoOrphans, Created, Backfilled, Listed;
      var list := if def.entityType.NodeEntity? then Backfilled(s.nodes, def.graphId, covering) else [];
      CreatedListed(s.family, def, list, env);
      CreatedNoOrphans(s.family, def, list, env);
    case DropIndex(g, name) =>
      hide EnvOk, NodesKeyed, NoOrphans, MetaKey, EntryPrefix;
      DroppedNoOrphans(s.family, g, name, env);
    case DropGraph(g) =>
      hide EnvOk, NodesKeyed, NoOrphans, FamilyOk, WithoutGraph;
      FamilyWithoutGraph(s.family, g, env);
      DropGraphNoOrphans(s.family, g, env);
      KeyedWithoutGraph(s.nodes, g);
  }

  lemma KeyedWithoutGraph(nodes: NodeTable, g: Uuid)
    requires NodesKeyed(nodes)
    ensures NodesKeyed(WithoutGraph(nodes, g))
  {
    hide NodeOf;
  }

  /** A step that does not touch a coherent index leaves it coherent. */
  lemma StepKeepsCoherent(s: State, step: Step, def: IndexDefinition, env: Env)
    requires EnvOk(env) && Inv(s, env) && Maintained(s.family, def, s.nodes, env) && !Touches(step, def, env)
    ensures Maintained(Apply(s, step, env).family, def, Apply(s, step, env).nodes, env)
  {
    hide EnvOk, FamilyOk, NodesKeyed, NoOrphans, Created, Backfilled, Dropped, WithoutGraph, Maintained, UnindexAll,
      IndexAll,
      DefsAt, SameHash;
    match step
    case WriteNode(node) => WriteStep(s, node, env);
    case RemoveNode(g, id) => RemoveStep(s, g, id, env);
    case CreateIndex(d, covering) =>
      var list := if d.entityType.NodeEntity? then Backfilled(s.nodes, d.graphId, covering) else [];
      CreatedKeepsOthers(s.family, s.nodes, d, list, def, env);
    case DropIndex(g, name) => DroppedKeepsOthers(s.family, s.nodes, g, name, def, env);
    case DropGraph(g) => DropGraphKeepsOthers(s.family, s.nodes, g, def, env);
  }

  /** A run, oldest step first. */
  ghost function Run(s: State, steps: seq<Step>, env: Env): (t: State)
    requires EnvOk(env) && Inv(s, env)
    ensures Inv(t, env)
    decreases |steps|
  {
    if steps == [] then s
    else
      StepKeepsInv(s, steps[0], env);
      Run(Apply(s, steps[0], env), steps[1..], env)
  }

  lemma {:induction false} RunKeepsCoherent(s: State, steps: seq<Step>, def: IndexDefinition, env: Env)
    requires EnvOk(env) && Inv(s, env) && Maintained(s.family, def, s.nodes, env)
    requires forall i :: 0 <= i < |steps| ==> !Touches(steps[i], def, env)
    ensures Maintained(Run(s, steps, env).family, def, Run(s, steps, env).nodes, env)
    decreases |steps|
  {
    hide Apply, Maintained, Touches, EnvOk, Inv;
    if steps != [] {
      StepKeepsInv(s, steps[0], env);
      StepKeepsCoherent(s, steps[0], def, env);
      RunKeepsCoherent(Apply(s, steps[0], env), steps[1..], def, env);
    }
  }

  const EMPTY: State := State(map[], map[])

  lemma EmptyInv(env: Env)
    ensures Inv(EMPTY, env)
  {
  }

  /**
   When a non-unique node index with a fresh name is created, it is coherent if
   and only if the label its backfill was limited to, if any, is on every node
   of the graph that has an indexed property: the definition keeps no label.
   */
  lemma CreationCoherent(s: State, def: IndexDefinition, covering: Option<string>, env: Env)
    requires EnvOk(env) && Inv(s, env)
    requires def.entityType.NodeEntity? && !def.unique && Fresh(s.family, def.graphId, def.name, env)
    ensures var t := Apply(s, CreateIndex(def, covering), env);
            Maintained(t.family, def, t.nodes, env) <==>
              covering.None? || forall n :: Covered(def, s.nodes, n) ==> HasLabelKey(n, covering.value)
  {
    var list := Backfilled(s.nodes, def.graphId, covering);
    BackfilledFromGraph(s.nodes, def.graphId, covering);
    hide EnvOk, FamilyOk, NodesKeyed, NoOrphans, Created, Backfilled, Maintained, HasLabelKey, NodeOf, HasIndexed,
      FromGraph, Fresh;
    CreatedMaintained(s.family, s.nodes, def, list, env);
  }

  lemma {:induction false} RunConcat(s: State, a: seq<Step>, b: seq<Step>, env: Env)
    requires EnvOk(env) && Inv(s, env)
    ensures Run(s, a + b, env) == Run(Run(s, a, env), b, env)
    decreases |a|
  {
    hide Apply, EnvOk, Inv;
    if a == [] {
      assert a + b == b;
    } else {
      assert (a + b)[0] == a[0] && (a + b)[1..] == a[1..] + b;
      StepKeepsInv(s, a[0], env);
      RunConcat(Apply(s, a[0], env), a[1..], b, env);
    }
  }

  /**
   Coherence in every reachable state: an index created under a fresh name
   over all nodes is coherent after any later run that does not touch it.
   */
  lemma CoherentInEveryRun(before: seq<Step>, def: IndexDefinition, after: seq<Step>, env: Env)
    requires EnvOk(env)
    requires def.entityType.NodeEntity? && !def.unique
    requires Fresh(Run(EMPTY, before, env).family, def.graphId, def.name, env)
    requires forall i :: 0 <= i < |after| ==> !Touches(after[i], def, env)
    ensures var t := Run(EMPTY, before + ([CreateIndex(def, None)] + after), env);
            Maintained(t.family, def, t.nodes, env)
  {
    hide EnvOk, Inv, Apply, Maintained, Fresh, Touches, Covered;
    EmptyInv(env);
    var s := Run(EMPTY, before, env);
    var rest := [CreateIndex(def, None)] + after;
    RunConcat(EMPTY, before, rest, env);
    StepKeepsInv(s, rest[0], env);
    CreationCoherent(s, def, None, env);
    RunKeepsCoherent(Apply(s, rest[0], env), after, def, env);
    assert rest[1..] == after;
  }
}
