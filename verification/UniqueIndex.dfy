/** What a unique index promises: at most one node per tuple of values, in every run. */
module UniqueIndex {
  import opened Bytes
  import opened OrderedStore
  import opened Wrappers
  import opened Values
  import opened ValueCodec
  import opened GraphKeys
  import opened SecondaryIndex
  import opened GraphStore
  import opened PropertyIndex
  import opened StorageEngines
  import opened IndexScans
  import opened IndexMaintenance
  import opened IndexRuns

  /** Every key under the index's prefix is the entry of some node. */
  ghost predicate Tuples(family: IndexFamily, def: IndexDefinition, env: Env) {
    forall q :: q in family && EntryPrefix(def.graphId, def.name, env) <= q ==> exists n :: q == NodeEntry(def, n, env)
  }

  /** No two nodes have entries with the same encoded values. */
  ghost predicate Distinct(family: IndexFamily, def: IndexDefinition, env: Env) {
    forall m, n :: && NodeEntry(def, m, env) in family && NodeEntry(def, n, env) in family
                   && EncodeProperties(def, m, env) == EncodeProperties(def, n, env) ==>
                     m.id == n.id
  }

  ghost predicate Sole(family: IndexFamily, def: IndexDefinition, env: Env) {
    Tuples(family, def, env) && Distinct(family, def, env)
  }

  /** A recorded unique index whose name hash is its own and whose entries are one per tuple. */
  ghost predicate Guarded(family: IndexFamily, def: IndexDefinition, env: Env) {
    Listed(family, def) && def.unique && Apart(family, def, env) && Sole(family, def, env)
  }

  lemma EntryInjective(def: IndexDefinition, m: Node, n: Node, env: Env)
    requires NodeEntry(def, m, env) == NodeEntry(def, n, env)
    ensures m.id == n.id && EncodeProperties(def, m, env) == EncodeProperties(def, n, env)
  {
    hide EncodeProperties, EntryPrefix;
    var p, a, b := EntryPrefix(def.graphId, def.name, env), EncodeProperties(def, m, env), EncodeProperties(def, n, env);
    var q := NodeEntry(def, m, env);
    assert |q| == |p| + |a| + 16 == |p| + |b| + 16;
    assert a == q[|p|..|p| + |a|] == b;
    assert m.id == q[|q| - 16..] == n.id;
  }

  lemma EntryUnderPrefix(def: IndexDefinition, n: Node, env: Env)
    requires EnvOk(env)
    ensures EntryPrefix(def.graphId, def.name, env) <= NodeEntry(def, n, env)
    ensures |NodeEntry(def, n, env)| >= 16 && EntityId(NodeEntry(def, n, env)) == n.id
    ensures |NodeEntry(def, n, env)| > 16 && NodeEntry(def, n, env)[16] == ENTRY_MARKER
  {
    EntryShape(def, EncodeProperties(def, n, env), n.id, env);
    hide EnvOk, EncodeProperties, EntryPrefix, EntryOwner;
  }

  /** The uniqueness check fails exactly when another node has an entry with the same encoded values. */
  lemma ClashMeaning(family: IndexFamily, def: IndexDefinition, node: Node, env: Env)
    requires EnvOk(env) && Tuples(family, def, env)
    ensures Clashes(family, def, node, env) <==>
              exists n :: NodeEntry(def, n, env) in family && n.id != node.id
                          && EncodeProperties(def, n, env) == EncodeProperties(def, node, env)
  {
    var values := IndexedValues(def, node);
    var start := EntryValuePrefix(def, EncodeProperties(def, node, env), env);
    assert EntryPrefix(def.graphId, def.name, env) <= start;
    hide EnvOk, EncodeValues, EntryPrefix, EntryValuePrefix, EntryKey, NodeEntry, EntityId;
    forall n ensures start <= NodeEntry(def, n, env) <==> EncodeProperties(def, n, env) == EncodeProperties(def, node, env) {
      EntryMatches(def, n, values, env);
    }
    forall n ensures |NodeEntry(def, n, env)| >= 16 && EntityId(NodeEntry(def, n, env)) == n.id {
      EntryUnderPrefix(def, n, env);
    }
    if Clashes(family, def, node, env) {
      var q :| q in family && start <= q && |q| >= 16 && EntityId(q) != node.id;
      var n :| q == NodeEntry(def, n, env);
      assert NodeEntry(def, n, env) in family && n.id != node.id;
    }
  }

  // ----- one entry -----

  lemma InsertOwn(family: IndexFamily, def: IndexDefinition, node: Node, env: Env)
    requires EnvOk(env) && def.unique && Sole(family, def, env)
    ensures Sole(Insert(family, def, node, env), def, env)
  {
    ClashMeaning(family, def, node, env);
    hide EnvOk, Clashes, NodeEntry, EncodeProperties, EntryPrefix;
    forall m, n | NodeEntry(def, m, env) == NodeEntry(def, n, env)
      ensures m.id == n.id && EncodeProperties(def, m, env) == EncodeProperties(def, n, env)
    {
      EntryInjective(def, m, n, env);
    }
  }

  /** A family with no new key under the index's prefix. */
  lemma FewerKeys(family: IndexFamily, family': IndexFamily, def: IndexDefinition, env: Env)
    requires EnvOk(env) && Sole(family, def, env)
    requires forall q :: q in family' && EntryPrefix(def.graphId, def.name, env) <= q ==> q in family
    ensures Sole(family', def, env)
  {
    hide EnvOk, NodeEntry, EncodeProperties, EntryPrefix, EntityId;
    forall n ensures EntryPrefix(def.graphId, def.name, env) <= NodeEntry(def, n, env) {
      EntryUnderPrefix(def, n, env);
    }
  }

  /** The definition is the index itself or one whose entries lie elsewhere. */
  ghost predicate Harmless(def: IndexDefinition, d: IndexDefinition, env: Env) {
    d == def || !SameHash(def, d.graphId, d.name, env)
  }

  lemma InsertSole(family: IndexFamily, d: IndexDefinition, node: Node, def: IndexDefinition, env: Env)
    requires EnvOk(env) && def.unique && Sole(family, def, env) && Harmless(def, d, env)
    ensures Sole(Insert(family, d, node, env), def, env)
  {
    if d == def {
      InsertOwn(family, def, node, env);
    } else {
      EntryUnderPrefix(d, node, env);
      hide EnvOk, NodeEntry, EntryPrefix, Sole, Clashes, EntityId;
      if EntryPrefix(def.graphId, def.name, env) <= NodeEntry(d, node, env) {
        PrefixesApart(def.graphId, def.name, d.graphId, d.name, env, NodeEntry(d, node, env));
        assert false;
      }
      FewerKeys(family, Insert(family, d, node, env), def, env);
    }
  }

  lemma {:induction false} IndexAllSole(family: IndexFamily, defs: seq<IndexDefinition>, node: Node, def: IndexDefinition,
                                        env: Env)
    requires EnvOk(env) && def.unique && Sole(family, def, env)
    requires forall d :: d in defs ==> Harmless(def, d, env)
    ensures Sole(IndexAll(family, defs, node, env), def, env)
  {
    hide EnvOk, Sole, Insert, Covers, Harmless;
    if defs != [] {
      var n := |defs| - 1;
      IndexAllSole(family, defs[..n], node, def, env);
      if Covers(defs[n], node) {
        InsertSole(IndexAll(family, defs[..n], node, env), defs[n], node, def, env);
      }
    }
  }

  lemma {:induction false} BackfillSole(family: IndexFamily, def: IndexDefinition, list: seq<Node>, env: Env)
    requires EnvOk(env) && def.unique && Sole(family, def, env)
    ensures Sole(Backfill(family, def, list, env), def, env)
  {
    hide EnvOk, Sole, Insert, HasIndexed;
    if list != [] {
      var n := |list| - 1;
      BackfillSole(family, def, list[..n], env);
      if HasIndexed(def, list[n]) {
        InsertOwn(Backfill(family, def, list[..n], env), def, list[n], env);
      }
    }
  }

  // ----- one step -----

  lemma HarmlessListed(family: IndexFamily, def: IndexDefinition, graphId: Uuid, env: Env)
    requires FamilyOk(family, env) && Listed(family, def) && Apart(family, def, env)
    ensures forall d :: d in DefsAt(family, graphId, env) ==> Harmless(def, d, env)
  {
    DefsAtListed(family, graphId, env);
    hide DefsAt, FamilyOk;
    forall d | d in DefsAt(family, graphId, env) ensures Harmless(def, d, env) {
      if SameHash(def, d.graphId, d.name, env) {
        SameName(family, d, def);
      }
    }
  }

  lemma IndexGuarded(family: IndexFamily, node: Node, def: IndexDefinition, env: Env)
    requires EnvOk(env) && FamilyOk(family, env) && Guarded(family, def, env)
    ensures Guarded(IndexAll(family, DefsAt(family, node.graphId, env), node, env), def, env)
  {
    var defs := DefsAt(family, node.graphId, env);
    var family' := IndexAll(family, defs, node, env);
    HarmlessListed(family, def, node.graphId, env);
    IndexAllGrows(family, defs, node, env);
    DefsAtListed(family, node.graphId, env);
    EntriesShaped(defs, node, env);
    hide EnvOk, FamilyOk, DefsAt, EntriesOf, RequiredOf, Listed, IndexAll, EntryOwner, NodeOf, Apart, Grown, Sole, Harmless;
    IndexListed(family, family', RequiredOf(defs, node, env), EntriesOf(defs, node, env), env);
    SameApart(family, family', def, env);
    IndexAllSole(family, defs, node, def, env);
  }

  lemma UnindexGuarded(family: IndexFamily, node: Node, def: IndexDefinition, env: Env)
    requires EnvOk(env) && FamilyOk(family, env) && Guarded(family, def, env)
    ensures Guarded(UnindexAll(family, node, env), def, env)
  {
    hide EnvOk, FamilyOk, DefsAt, EntriesOf, Listed, Apart, Sole, EntryPrefix;
    var family' := UnindexAll(family, node, env);
    UnindexListed(family, node, env);
    SameApart(family, family', def, env);
    FewerKeys(family, family', def, env);
  }

  lemma CreatedGuarded(family: IndexFamily, d: IndexDefinition, list: seq<Node>, def: IndexDefinition, env: Env)
    requires EnvOk(env) && FamilyOk(family, env) && Guarded(family, def, env) && !SameHash(def, d.graphId, d.name, env)
    ensures Guarded(Created(family, d, list, env), def, env)
  {
    CreatedListed(family, d, list, env);
    CreatedElsewhere(family, d, list, def, env);
    hide EnvOk, FamilyOk, Listed, Created, EntryPrefix, Sole;
    FewerKeys(family, Created(family, d, list, env), def, env);
  }

  lemma DroppedGuarded(family: IndexFamily, graphId: Uuid, name: string, def: IndexDefinition, env: Env)
    requires EnvOk(env) && Guarded(family, def, env) && !SameHash(def, graphId, name, env)
    ensures Guarded(Dropped(family, graphId, name, env), def, env)
  {
    DroppedListed(family, graphId, name, env);
    hide EnvOk, Listed, EntryPrefix, MetaKey, Sole;
    FewerKeys(family, Dropped(family, graphId, name, env), def, env);
  }

  lemma DropGraphGuarded(family: IndexFamily, graphId: Uuid, def: IndexDefinition, env: Env)
    requires EnvOk(env) && Guarded(family, def, env) && def.graphId != graphId
    ensures Guarded(WithoutGraph(family, graphId), def, env)
  {
    WithoutGraphListed(family, graphId);
    hide EnvOk, Listed, EntryPrefix, Sole;
    FewerKeys(family, WithoutGraph(family, graphId), def, env);
  }

  lemma WriteGuarded(s: State, node: Node, def: IndexDefinition, env: Env)
    requires EnvOk(env) && Inv(s, env) && Guarded(s.family, def, env)
    ensures Guarded(Apply(s, WriteNode(node), env).family, def, env)
  {
    hide EnvOk, FamilyOk, NodesKeyed, NoOrphans, Guarded, NodeOf, UnindexAll, IndexAll, DefsAt;
    var k := NodeOf(node);
    if k in s.nodes {
      FamilyAfterUnindex(s.family, s.nodes[k], env);
      UnindexGuarded(s.family, s.nodes[k], def, env);
      IndexGuarded(UnindexAll(s.family, s.nodes[k], env), node, def, env);
    } else {
      IndexGuarded(s.family, node, def, env);
    }
  }

  lemma StepKeepsGuarded(s: State, step: Step, def: IndexDefinition, env: Env)
    requires EnvOk(env) && Inv(s, env) && Guarded(s.family, def, env) && !Touches(step, def, env)
    ensures Guarded(Apply(s, step, env).family, def, env)
  {
    hide EnvOk, FamilyOk, NodesKeyed, NoOrphans, Guarded, NodeKey, UnindexAll, Created, Backfilled, Dropped, WithoutGraph,
      SameHash;
    match step
    case WriteNode(node) => WriteGuarded(s, node, def, env);
    case RemoveNode(g, id) =>
      if NodeKey(g, id) in s.nodes {
        UnindexGuarded(s.family, s.nodes[NodeKey(g, id)], def, env);
      }
    case CreateIndex(d, covering) =>
      var list := if d.entityType.NodeEntity? then Backfilled(s.nodes, d.graphId, covering) else [];
      CreatedGuarded(s.family, d, list, def, env);
    case DropIndex(g, name) => DroppedGuarded(s.family, g, name, def, env);
    case DropGraph(g) => DropGraphGuarded(s.family, g, def, env);
  }

  // ----- whole runs -----

  lemma {:induction false} RunKeepsGuarded(s: State, steps: seq<Step>, def: IndexDefinition, env: Env)
    requires EnvOk(env) && Inv(s, env) && Guarded(s.family, def, env)
    requires forall i :: 0 <= i < |steps| ==> !Touches(steps[i], def, env)
    ensures Guarded(Run(s, steps, env).family, def, env)
    decreases |steps|
  {
    hide Apply, Guarded, Touches, EnvOk, Inv;
    if steps != [] {
      StepKeepsInv(s, steps[0], env);
      StepKeepsGuarded(s, steps[0], def, env);
      RunKeepsGuarded(Apply(s, steps[0], env), steps[1..], def, env);
    }
  }

  lemma CreatedSole(family: IndexFamily, def: IndexDefinition, list: seq<Node>, env: Env)
    requires EnvOk(env) && FamilyOk(family, env) && NoOrphans(family, env)
    requires Fresh(family, def.graphId, def.name, env) && def.unique
    ensures Guarded(Created(family, def, list, env), def, env)
  {
    var middle := family[MetaKey(def.graphId, def.name) := Meta(def)];
    CreatedListed(family, def, list, env);
    FreshEmpty(family, def.graphId, def.name, env);
    MetaNotEntry(def.graphId, def.name, def.graphId, def.name, env);
    hide EnvOk, FamilyOk, NoOrphans, Fresh, Listed, MetaKey, Backfill, EntryPrefix, NodeEntry, EntityId;
    forall n ensures EntryPrefix(def.graphId, def.name, env) <= NodeEntry(def, n, env) {
      EntryUnderPrefix(def, n, env);
    }
    assert Sole(middle, def, env);
    BackfillSole(middle, def, list, env);
    FreshApart(family, Created(family, def, list, env), def, env);
  }

  lemma CreationGuarded(s: State, def: IndexDefinition, covering: Option<string>, env: Env)
    requires EnvOk(env) && Inv(s, env) && def.unique && Fresh(s.family, def.graphId, def.name, env)
    ensures Guarded(Apply(s, CreateIndex(def, covering), env).family, def, env)
  {
    hide EnvOk, FamilyOk, NodesKeyed, NoOrphans, Fresh, Guarded, Created, Backfilled;
    var list := if def.entityType.NodeEntity? then Backfilled(s.nodes, def.graphId, covering) else [];
    CreatedSole(s.family, def, list, env);
  }

  /** A lookup in a guarded index finds at most one node. */
  lemma GuardedLookup(family: IndexFamily, def: IndexDefinition, values: seq<Value>, env: Env)
    requires EnvOk(env) && Guarded(family, def, env) && |values| == |def.propertyNames|
    ensures |LookupKeys(family, def, values, env)| <= 1
  {
    var prefix := EntryValuePrefix(def, EncodeValues(values, env.codec), env);
    var ks := LookupKeys(family, def, values, env);
    if |ks| > 1 {
      SortedKeysDiffer((set k | k in family.Keys && prefix <= k), 0, 1);
      assert ks[0] in ks && ks[1] in ks;
      hide *;
      SameKey(family, def, values, ks[0], ks[1], env);
      assert false;
    }
  }

  lemma SameKey(family: IndexFamily, def: IndexDefinition, values: seq<Value>, p: Bytes, q: Bytes, env: Env)
    requires EnvOk(env) && Guarded(family, def, env) && |values| == |def.propertyNames|
    requires p in family && EntryValuePrefix(def, EncodeValues(values, env.codec), env) <= p
    requires q in family && EntryValuePrefix(def, EncodeValues(values, env.codec), env) <= q
    ensures p == q
  {
    assert EntryPrefix(def.graphId, def.name, env) <= EntryValuePrefix(def, EncodeValues(values, env.codec), env);
    hide EnvOk, Listed, Apart, EncodeValues, EntryPrefix, EntryValuePrefix, EncodeProperties;
    var m :| p == NodeEntry(def, m, env);
    var n :| q == NodeEntry(def, n, env);
    EntryMatches(def, m, values, env);
    EntryMatches(def, n, values, env);
  }

  /**
   Uniqueness in every reachable state: after a unique index was created under
   a fresh name, over whatever its backfill went through, and after any later
   run that does not touch it, a lookup of a full tuple finds at most one node.
   */
  lemma UniqueInEveryRun(before: seq<Step>, def: IndexDefinition, covering: Option<string>, after: seq<Step>,
                         values: seq<Value>, env: Env)
    requires EnvOk(env) && def.unique && |values| == |def.propertyNames|
    requires Fresh(Run(EMPTY, before, env).family, def.graphId, def.name, env)
    requires forall i :: 0 <= i < |after| ==> !Touches(after[i], def, env)
    ensures |LookupKeys(Run(EMPTY, before + ([CreateIndex(def, covering)] + after), env).family, def, values, env)| <= 1
  {
    hide EnvOk, Inv, Apply, Fresh, Touches, LookupKeys, Guarded;
    EmptyInv(env);
    var s := Run(EMPTY, before, env);
    var rest := [CreateIndex(def, covering)] + after;
    RunConcat(EMPTY, before, rest, env);
    StepKeepsInv(s, rest[0], env);
    CreationGuarded(s, def, covering, env);
    assert rest[1..] == after;
    RunKeepsGuarded(Apply(s, rest[0], env), after, def, env);
    GuardedLookup(Run(s, rest, env).family, def, values, env);
  }

  // ----- which writes a unique index takes -----

  /** The entry a write offers to the index is taken unless another node holds the tuple. */
  ghost predicate Takes(family: IndexFamily, defs: seq<IndexDefinition>, def: IndexDefinition, node: Node, env: Env) {
    def in defs && Covers(def, node) && !Clashes(family, def, node, env)
  }

  /** The two families differ under the prefix in entries of the node alone. */
  lemma SameClash(family: IndexFamily, family': IndexFamily, def: IndexDefinition, node: Node, env: Env)
    requires forall q :: EntryPrefix(def.graphId, def.name, env) <= q && |q| >= 16 && EntityId(q) != node.id ==>
               (q in family <==> q in family')
    ensures Clashes(family, def, node, env) <==> Clashes(family', def, node, env)
  {
    var start := EntryValuePrefix(def, EncodeProperties(def, node, env), env);
    assert EntryPrefix(def.graphId, def.name, env) <= start;
    hide EncodeProperties, EntryPrefix, EntryValuePrefix, EntityId;
  }

  lemma {:induction false} IndexAllUnder(family: IndexFamily, defs: seq<IndexDefinition>, node: Node, def: IndexDefinition,
                                         env: Env)
    requires EnvOk(env) && def.unique
    requires forall d :: d in defs ==> Harmless(def, d, env)
    ensures forall q :: EntryPrefix(def.graphId, def.name, env) <= q ==>
              (q in IndexAll(family, defs, node, env) <==>
                 q in family || (q == NodeEntry(def, node, env) && Takes(family, defs, def, node, env)))
  {
    hide EnvOk, Covers, EntryPrefix, NodeEntry, Clashes, EntityId;
    if defs != [] {
      var n := |defs| - 1;
      var before := IndexAll(family, defs[..n], node, env);
      IndexAllUnder(family, defs[..n], node, def, env);
      assert defs == defs[..n] + [defs[n]] && Harmless(def, defs[n], env);
      EntryUnderPrefix(defs[n], node, env);
      EntryUnderPrefix(def, node, env);
      if defs[n] == def {
        SameClash(family, before, def, node, env);
      } else if EntryPrefix(def.graphId, def.name, env) <= NodeEntry(defs[n], node, env) {
        PrefixesApart(def.graphId, def.name, defs[n].graphId, defs[n].name, env, NodeEntry(defs[n], node, env));
        assert false;
      }
    }
  }

  lemma UnindexUnder(family: IndexFamily, node: Node, def: IndexDefinition, env: Env)
    requires EnvOk(env) && FamilyOk(family, env) && Listed(family, def) && Apart(family, def, env)
    ensures forall q :: EntryPrefix(def.graphId, def.name, env) <= q && q in family &&
                        !(q == NodeEntry(def, node, env) && def.graphId == node.graphId) ==>
              q in UnindexAll(family, node, env)
  {
    hide EnvOk, FamilyOk, DefsAt, Listed, Apart, EntryPrefix, NodeEntry, EntriesOf;
    forall q | EntryPrefix(def.graphId, def.name, env) <= q && q in EntriesOf(DefsAt(family, node.graphId, env), node, env)
      ensures q == NodeEntry(def, node, env) && def.graphId == node.graphId
    {
      OwnEntry(family, def, node, env, q);
    }
  }

  /** The node's tuple is in the index under the node's own id. */
  ghost predicate Holds(family: IndexFamily, def: IndexDefinition, n: Node, env: Env) {
    NodeEntry(def, n, env) in family
  }

  ghost predicate SameTuple(def: IndexDefinition, m: Node, n: Node, env: Env) {
    EncodeProperties(def, m, env) == EncodeProperties(def, n, env)
  }

  /** Indexing a node adds its entry exactly when no other node holds its tuple, and changes no other entry. */
  lemma IndexAdmits(family: IndexFamily, node: Node, def: IndexDefinition, env: Env)
    requires EnvOk(env) && FamilyOk(family, env) && Guarded(family, def, env)
    requires def.graphId == node.graphId && Covers(def, node)
    ensures var after := IndexAll(family, DefsAt(family, node.graphId, env), node, env);
            && (Holds(after, def, node, env) <==>
                  !exists n :: Holds(family, def, n, env) && n.id != node.id && SameTuple(def, n, node, env))
            && (forall n: Node :: n.id != node.id ==> (Holds(after, def, n, env) <==> Holds(family, def, n, env)))
  {
    hide FamilyOk, EnvOk, Sole, Listed, Apart, Covers, NodeEntry, EntryPrefix, DefsAt, IndexAll, Harmless, Holds, SameTuple,
      Takes, Clashes;
    var defs := DefsAt(family, node.graphId, env);
    HarmlessListed(family, def, node.graphId, env);
    IndexAllUnder(family, defs, node, def, env);
    DefsAtListed(family, node.graphId, env);
    EntryUnderPrefix(def, node, env);
    hide *;
    OthersAdmitted(family, IndexAll(family, defs, node, env), node, def, env);
    OwnAdmitted(family, IndexAll(family, defs, node, env), defs, node, def, env);
  }

  lemma OthersAdmitted(family: IndexFamily, after: IndexFamily, node: Node, def: IndexDefinition, env: Env)
    requires EnvOk(env)
    requires forall q :: EntryPrefix(def.graphId, def.name, env) <= q && q != NodeEntry(def, node, env) ==>
               (q in after <==> q in family)
    ensures forall n: Node :: n.id != node.id ==> (Holds(after, def, n, env) <==> Holds(family, def, n, env))
  {
    hide EnvOk, EntryPrefix, NodeEntry, EntityId;
    EntryUnderPrefix(def, node, env);
    forall n: Node | n.id != node.id ensures Holds(after, def, n, env) <==> Holds(family, def, n, env) {
      EntryUnderPrefix(def, n, env);
    }
  }

  lemma OwnAdmitted(family: IndexFamily, after: IndexFamily, defs: seq<IndexDefinition>, node: Node, def: IndexDefinition,
                    env: Env)
    requires EnvOk(env) && Sole(family, def, env) && def in defs && Covers(def, node)
    requires NodeEntry(def, node, env) in after <==>
               NodeEntry(def, node, env) in family || Takes(family, defs, def, node, env)
    ensures Holds(after, def, node, env) <==>
              !exists n :: Holds(family, def, n, env) && n.id != node.id && SameTuple(def, n, node, env)
  {
    ClashMeaning(family, def, node, env);
    hide EnvOk, Tuples, EntryPrefix, NodeEntry, Clashes, Covers, EncodeProperties;
  }

  /**
   Writing a node of the graph that has an indexed property: a unique index
   takes its entry exactly when no other node holds the tuple, and what other
   nodes hold is left alone.
   */
  lemma UniqueAdmits(s: State, node: Node, def: IndexDefinition, env: Env)
    requires EnvOk(env) && Inv(s, env) && Guarded(s.family, def, env)
    requires def.graphId == node.graphId && Covers(def, node)
    ensures var t := Apply(s, WriteNode(node), env);
            && (Holds(t.family, def, node, env) <==>
                  !exists n :: Holds(s.family, def, n, env) && n.id != node.id && SameTuple(def, n, node, env))
            && (forall n: Node :: n.id != node.id ==> (Holds(t.family, def, n, env) <==> Holds(s.family, def, n, env)))
  {
    var k := NodeOf(node);
    if k in s.nodes {
      var previous := s.nodes[k];
      assert NodeOf(previous) == k;
      OldVersion(s, node, def, env);
      FamilyAfterUnindex(s.family, previous, env);
      UnindexGuarded(s.family, previous, def, env);
      hide *;
      IndexAdmits(UnindexAll(s.family, previous, env), node, def, env);
    } else {
      IndexAdmits(s.family, node, def, env);
    }
  }

  /** Taking the old version's entries out leaves what other nodes hold. */
  lemma OldVersion(s: State, node: Node, def: IndexDefinition, env: Env)
    requires EnvOk(env) && Inv(s, env) && Guarded(s.family, def, env) && NodeOf(node) in s.nodes
    ensures forall n: Node :: n.id != node.id ==>
              (Holds(UnindexAll(s.family, s.nodes[NodeOf(node)], env), def, n, env) <==> Holds(s.family, def, n, env))
  {
    var previous := s.nodes[NodeOf(node)];
    assert NodeOf(previous) == NodeOf(node);
    assert previous.id == node.id by {
      assert NodeOf(previous)[16..] == previous.id && NodeOf(node)[16..] == node.id;
    }
    OthersHold(s.family, previous, def, env);
  }

  lemma OthersHold(family: IndexFamily, previous: Node, def: IndexDefinition, env: Env)
    requires EnvOk(env) && FamilyOk(family, env) && Guarded(family, def, env)
    ensures forall n: Node :: n.id != previous.id ==>
              (Holds(UnindexAll(family, previous, env), def, n, env) <==> Holds(family, def, n, env))
  {
    UnindexUnder(family, previous, def, env);
    hide EnvOk, FamilyOk, DefsAt, Listed, Apart, EntryPrefix, NodeEntry, EntriesOf, EntityId, Sole;
    forall n: Node ensures EntryPrefix(def.graphId, def.name, env) <= NodeEntry(def, n, env)
                   ensures |NodeEntry(def, n, env)| >= 16 && EntityId(NodeEntry(def, n, env)) == n.id {
      EntryUnderPrefix(def, n, env);
    }
  }

  // ----- a refused node stays out -----

  lemma EntryGone(s: State, a: Node, def: IndexDefinition, env: Env)
    requires EnvOk(env) && Inv(s, env) && Guarded(s.family, def, env)
    requires NodeOf(a) in s.nodes && s.nodes[NodeOf(a)] == a && def.graphId == a.graphId && Covers(def, a)
    ensures var t := Apply(s, RemoveNode(a.graphId, a.id), env);
            && !Holds(t.family, def, a, env) && t.nodes == s.nodes - {NodeOf(a)}
            && forall n: Node :: n.id != a.id ==> (Holds(t.family, def, n, env) <==> Holds(s.family, def, n, env))
  {
    DefsAtListed(s.family, a.graphId, env);
    OthersHold(s.family, a, def, env);
    hide EnvOk, FamilyOk, DefsAt, Listed, Apart, NoOrphans, Covers, Sole, NodeEntry;
    assert def in DefsAt(s.family, a.graphId, env);
    assert NodeEntry(def, a, env) in EntriesOf(DefsAt(s.family, a.graphId, env), a, env);
  }

  lemma SameTupleSameEntry(def: IndexDefinition, m: Node, n: Node, env: Env)
    requires SameTuple(def, m, n, env) && m.id == n.id
    ensures NodeEntry(def, m, env) == NodeEntry(def, n, env)
  {
  }

  /**
   The index is not complete: of two nodes with one tuple the second is
   refused, and when the first is removed no node holds the tuple although
   the second is stored.
   */
  lemma RefusedNodeIsLost(s: State, a: Node, b: Node, def: IndexDefinition, env: Env)
    requires EnvOk(env) && Inv(s, env) && Guarded(s.family, def, env)
    requires def.graphId == a.graphId == b.graphId && Covers(def, a) && Covers(def, b)
    requires a.id != b.id && SameTuple(def, a, b, env)
    requires forall n :: SameTuple(def, n, a, env) ==> !Holds(s.family, def, n, env)
    ensures var t := Run(s, [WriteNode(a), WriteNode(b), RemoveNode(a.graphId, a.id)], env);
            && NodeOf(b) in t.nodes && t.nodes[NodeOf(b)] == b
            && forall n :: SameTuple(def, n, b, env) ==> !Holds(t.family, def, n, env)
  {
    hide Apply, Run, Inv, Guarded, Covers, EnvOk, Holds, NodeOf, SameTuple;
    var r := RemoveNode(a.graphId, a.id);
    Written(s, a, def, env);
    var s1 := Apply(s, WriteNode(a), env);
    Written(s1, b, def, env);
    var s2 := Apply(s1, WriteNode(b), env);
    Apartness(a, b);
    RunOfThree(s, WriteNode(a), WriteNode(b), r, env);
    UniqueAdmits(s, a, def, env);
    UniqueAdmits(s1, b, def, env);
    EntryGone(s2, a, def, env);
    NoneHolds(s, s1, s2, Apply(s2, r, env), a, b, def, env);
  }

  lemma Written(s: State, node: Node, def: IndexDefinition, env: Env)
    requires EnvOk(env) && Inv(s, env) && Guarded(s.family, def, env)
    ensures var t := Apply(s, WriteNode(node), env);
            Inv(t, env) && Guarded(t.family, def, env) && t.nodes == s.nodes[NodeOf(node) := node]
  {
    hide EnvOk, Inv, Guarded, NodeOf, UnindexAll, IndexAll, DefsAt;
    StepKeepsInv(s, WriteNode(node), env);
    WriteGuarded(s, node, def, env);
  }

  lemma Apartness(a: Node, b: Node)
    requires a.id != b.id
    ensures NodeOf(a) != NodeOf(b)
  {
    assert NodeOf(a)[16..] == a.id && NodeOf(b)[16..] == b.id;
  }

  lemma RunOfThree(s: State, x: Step, y: Step, z: Step, env: Env)
    requires EnvOk(env) && Inv(s, env)
    ensures Inv(Apply(s, x, env), env) && Inv(Apply(Apply(s, x, env), y, env), env)
    ensures Run(s, [x, y, z], env) == Apply(Apply(Apply(s, x, env), y, env), z, env)
  {
    hide Apply, EnvOk, Inv;
    StepKeepsInv(s, x, env);
    var s1 := Apply(s, x, env);
    StepKeepsInv(s1, y, env);
    var s2 := Apply(s1, y, env);
    StepKeepsInv(s2, z, env);
    assert [x, y, z][1..] == [y, z] && [y, z][1..] == [z] && [z][1..] == [];
    assert Run(s2, [z], env) == Run(Apply(s2, z, env), [], env);
    assert Run(s1, [y, z], env) == Run(s2, [z], env);
    assert Run(s, [x, y, z], env) == Run(s1, [y, z], env);
  }

  lemma NoneHolds(s: State, s1: State, s2: State, t: State, a: Node, b: Node, def: IndexDefinition, env: Env)
    requires a.id != b.id && SameTuple(def, a, b, env)
    requires forall n :: SameTuple(def, n, a, env) ==> !Holds(s.family, def, n, env)
    requires Holds(s1.family, def, a, env) <==>
               !exists n :: Holds(s.family, def, n, env) && n.id != a.id && SameTuple(def, n, a, env)
    requires forall n: Node :: n.id != a.id ==> (Holds(s1.family, def, n, env) <==> Holds(s.family, def, n, env))
    requires Holds(s2.family, def, b, env) <==>
               !exists n :: Holds(s1.family, def, n, env) && n.id != b.id && SameTuple(def, n, b, env)
    requires forall n: Node :: n.id != b.id ==> (Holds(s2.family, def, n, env) <==> Holds(s1.family, def, n, env))
    requires !Holds(t.family, def, a, env)
    requires forall n: Node :: n.id != a.id ==> (Holds(t.family, def, n, env) <==> Holds(s2.family, def, n, env))
    ensures forall n :: SameTuple(def, n, b, env) ==> !Holds(t.family, def, n, env)
  {
    forall n | SameTuple(def, n, b, env) ensures !Holds(t.family, def, n, env) {
      assert SameTuple(def, n, a, env);
      if n.id == a.id {
        SameTupleSameEntry(def, n, a, env);
      } else if n.id == b.id {
        SameTupleSameEntry(def, n, b, env);
      }
      hide NodeEntry, EncodeProperties;
    }
  }
}
