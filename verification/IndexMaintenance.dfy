/**
 Index coherence: what the executor writes to the index family whenever a node
 is created, changed or deleted, and why a coherent index stays coherent.
 */
module IndexMaintenance {
  import opened Bytes
  import opened OrderedStore
  import opened Wrappers
  import opened Values
  import opened GraphKeys
  import opened SecondaryIndex
  import opened GraphStore
  import opened PropertyIndex
  import opened StorageEngines
  import opened IndexScans

  /** The index is over nodes and the node has one of its properties. */
  predicate Covers(def: IndexDefinition, node: Node) {
    def.entityType.NodeEntity? && HasIndexed(def, node)
  }

  /** `index_node` with its error ignored: a unique index keeps its old entries on a clash. */
  ghost function Insert(family: IndexFamily, def: IndexDefinition, node: Node, env: Env): IndexFamily {
    if def.unique && Clashes(family, def, node, env) then family else family[NodeEntry(def, node, env) := Entry]
  }

  /** The family after a node was written: every index that covers it takes its entry. */
  ghost function IndexAll(family: IndexFamily, defs: seq<IndexDefinition>, node: Node, env: Env): IndexFamily {
    if defs == [] then family
    else
      var n := |defs| - 1;
      var before := IndexAll(family, defs[..n], node, env);
      if Covers(defs[n], node) then Insert(before, defs[n], node, env) else before
  }

  /** The family after a new index took the entries of existing nodes. */
  ghost function Backfill(family: IndexFamily, def: IndexDefinition, list: seq<Node>, env: Env): IndexFamily {
    if list == [] then family
    else
      var n := |list| - 1;
      var before := Backfill(family, def, list[..n], env);
      if HasIndexed(def, list[n]) then Insert(before, def, list[n], env) else before
  }

  /** The entries of a node in the indexes that cover it. */
  ghost function EntriesOf(defs: seq<IndexDefinition>, node: Node, env: Env): set<Bytes> {
    set d | d in defs && Covers(d, node) :: NodeEntry(d, node, env)
  }

  ghost function UnindexAll(family: IndexFamily, node: Node, env: Env): IndexFamily
    requires FamilyOk(family, env)
  {
    family - EntriesOf(DefsAt(family, node.graphId, env), node, env)
  }

  // ----- what is kept -----

  /** No other index of the graph has a name with the same hash. */
  ghost predicate Apart(family: IndexFamily, def: IndexDefinition, env: Env) {
    forall d :: Listed(family, d) && d.graphId == def.graphId && env.hash(d.name) == env.hash(def.name) ==>
      d.name == def.name
  }

  /** A non-unique node index whose entries are exactly those of its graph's nodes. */
  ghost predicate Maintained(family: IndexFamily, def: IndexDefinition, nodes: NodeTable, env: Env) {
    && Listed(family, def) && def.entityType.NodeEntity? && !def.unique
    && Apart(family, def, env) && Coherent(family, def, nodes, env)
  }

  /** Every entry belongs to a recorded index. */
  ghost predicate NoOrphans(family: IndexFamily, env: Env) {
    forall q :: q in family && family[q].Entry? ==>
      exists d :: Listed(family, d) && EntryPrefix(d.graphId, d.name, env) <= q
  }

  /** A step of the system: indexes that were coherent stay coherent, and no entry loses its index. */
  ghost predicate Keeps(family: IndexFamily, nodes: NodeTable, family': IndexFamily, nodes': NodeTable, env: Env) {
    && (forall def :: Maintained(family, def, nodes, env) ==> Maintained(family', def, nodes', env))
    && (NoOrphans(family, env) ==> NoOrphans(family', env))
  }

  /** `family'` is `family` with some new entries, all of them allowed and none of the required ones missing. */
  ghost predicate Grown(family: IndexFamily, family': IndexFamily, required: set<Bytes>, allowed: set<Bytes>) {
    && (forall q :: q in family ==> q in family' && family'[q] == family[q])
    && (forall q :: q in family' ==> q in family || (q in allowed && family'[q] == Entry))
    && (forall q :: q in required ==> q in family')
  }

  lemma SameListed(family: IndexFamily, family': IndexFamily, env: Env)
    requires EnvOk(env)
    requires forall q :: q in family && |q| >= 17 && q[16] == META_MARKER ==> q in family' && family'[q] == family[q]
    requires forall q :: q in family' && |q| >= 17 && q[16] == META_MARKER ==> q in family
    ensures forall d :: Listed(family, d) <==> Listed(family', d)
  {
    forall d ensures Listed(family, d) <==> Listed(family', d) {
      MetaShape(d.graphId, d.name);
      hide MetaKey;
    }
  }

  lemma SameName(family: IndexFamily, a: IndexDefinition, b: IndexDefinition)
    requires Listed(family, a) && Listed(family, b) && a.graphId == b.graphId && a.name == b.name
    ensures a == b
  {
  }

  lemma EntriesShaped(defs: seq<IndexDefinition>, node: Node, env: Env)
    requires EnvOk(env) && forall d: IndexDefinition :: d in defs ==> d.graphId == node.graphId
    ensures forall q :: q in EntriesOf(defs, node, env) ==>
              |q| >= 41 && q[16] == ENTRY_MARKER && EntryOwner(q) == NodeOf(node)
  {
    hide EnvOk, EncodeProperties, EntryOwner, Covers;
    forall d | d in defs
      ensures var q := NodeEntry(d, node, env); |q| >= 41 && q[16] == ENTRY_MARKER && EntryOwner(q) == NodeOf(node)
    {
      EntryShape(d, EncodeProperties(d, node, env), node.id, env);
    }
  }

  // ----- growing -----

  lemma InsertGrows(family: IndexFamily, before: IndexFamily, def: IndexDefinition, node: Node, required: set<Bytes>,
                    allowed: set<Bytes>, env: Env)
    requires EnvOk(env) && FamilyOk(before, env) && Grown(family, before, required, allowed)
    ensures var q := NodeEntry(def, node, env);
            && FamilyOk(Insert(before, def, node, env), env)
            && Grown(family, Insert(before, def, node, env), required + (if def.unique then {} else {q}), allowed + {q})
  {
    var q := NodeEntry(def, node, env);
    EntryShape(def, EncodeProperties(def, node, env), node.id, env);
    FamilyAfterEntry(before, def, EncodeProperties(def, node, env), node.id, env);
    if q in before {
      EntryNotMeta(before, q, env);
    }
    hide FamilyOk, EnvOk, EncodeProperties, EntryKey, Clashes, Grown, EntryPrefix, EntryValuePrefix, EntityId, EntryOwner;
    assert required + {} == required;
    GrownBy(family, before, q, required, allowed);
  }

  lemma GrownBy(family: IndexFamily, before: IndexFamily, q: Bytes, required: set<Bytes>, allowed: set<Bytes>)
    requires Grown(family, before, required, allowed) && (q in before ==> before[q] == Entry)
    ensures Grown(family, before[q := Entry], required + {q}, allowed + {q})
    ensures Grown(family, before[q := Entry], required, allowed + {q})
    ensures Grown(family, before, required, allowed + {q})
  {
  }

  lemma EntryNotMeta(family: IndexFamily, q: Bytes, env: Env)
    requires FamilyOk(family, env) && q in family && |q| >= 17 && q[16] == ENTRY_MARKER
    ensures family[q] == Entry
  {
    if family[q].Meta? {
      MetaShape(family[q].def.graphId, family[q].def.name);
    }
  }

  ghost function RequiredOf(defs: seq<IndexDefinition>, node: Node, env: Env): set<Bytes> {
    set d | d in defs && Covers(d, node) && !d.unique :: NodeEntry(d, node, env)
  }

  lemma {:induction false} IndexAllGrows(family: IndexFamily, defs: seq<IndexDefinition>, node: Node, env: Env)
    requires EnvOk(env) && FamilyOk(family, env)
    ensures FamilyOk(IndexAll(family, defs, node, env), env)
    ensures Grown(family, IndexAll(family, defs, node, env), RequiredOf(defs, node, env), EntriesOf(defs, node, env))
  {
    hide EnvOk, FamilyOk, NodeEntry, Insert, Covers, Grown;
    if defs == [] {
      GrownSelf(family);
      assert RequiredOf(defs, node, env) == {} == EntriesOf(defs, node, env);
    } else {
      var n := |defs| - 1;
      IndexAllGrows(family, defs[..n], node, env);
      var before := IndexAll(family, defs[..n], node, env);
      assert defs == defs[..n] + [defs[n]];
      if Covers(defs[n], node) {
        InsertGrows(family, before, defs[n], node, RequiredOf(defs[..n], node, env), EntriesOf(defs[..n], node, env), env);
        var q := NodeEntry(defs[n], node, env);
        assert EntriesOf(defs, node, env) == EntriesOf(defs[..n], node, env) + {q};
        assert RequiredOf(defs, node, env) == RequiredOf(defs[..n], node, env) + (if defs[n].unique then {} else {q});
      } else {
        assert EntriesOf(defs, node, env) == EntriesOf(defs[..n], node, env);
        assert RequiredOf(defs, node, env) == RequiredOf(defs[..n], node, env);
      }
    }
  }

  lemma GrownSelf(family: IndexFamily)
    ensures Grown(family, family, {}, {})
  {
  }

  ghost function BackfillEntries(def: IndexDefinition, list: seq<Node>, env: Env): set<Bytes> {
    set n | n in list && HasIndexed(def, n) :: NodeEntry(def, n, env)
  }

  lemma {:induction false} BackfillGrows(family: IndexFamily, def: IndexDefinition, list: seq<Node>, env: Env)
    requires EnvOk(env) && FamilyOk(family, env)
    ensures FamilyOk(Backfill(family, def, list, env), env)
    ensures Grown(family, Backfill(family, def, list, env), if def.unique then {} else BackfillEntries(def, list, env),
                  BackfillEntries(def, list, env))
  {
    hide EnvOk, FamilyOk, NodeEntry, Insert, HasIndexed, Grown;
    if list == [] {
      GrownSelf(family);
      assert BackfillEntries(def, list, env) == {};
    } else {
      var n := |list| - 1;
      BackfillGrows(family, def, list[..n], env);
      assert list == list[..n] + [list[n]];
      var before := BackfillEntries(def, list[..n], env);
      if HasIndexed(def, list[n]) {
        InsertGrows(family, Backfill(family, def, list[..n], env), def, list[n], if def.unique then {} else before, before, env);
        assert BackfillEntries(def, list, env) == before + {NodeEntry(def, list[n], env)};
        var none: set<Bytes> := {};
        assert none + none == none;
      } else {
        assert BackfillEntries(def, list, env) == before;
      }
    }
  }

  // ----- unindexing a node -----

  lemma OwnEntries(def: IndexDefinition, env: Env)
    requires EnvOk(env)
    ensures forall n: Node :: n.graphId == def.graphId ==>
              |NodeEntry(def, n, env)| >= 41 && EntryOwner(NodeEntry(def, n, env)) == NodeOf(n)
  {
    hide EnvOk, EncodeProperties, EntryOwner, EntryPrefix;
    forall n: Node | n.graphId == def.graphId
      ensures |NodeEntry(def, n, env)| >= 41 && EntryOwner(NodeEntry(def, n, env)) == NodeOf(n)
    {
      EntryShape(def, EncodeProperties(def, n, env), n.id, env);
    }
  }

  /** Coherence after a node's entries are gone. */
  lemma ShrunkCoherent(family: IndexFamily, gone: set<Bytes>, def: IndexDefinition, nodes: NodeTable, k: Bytes, env: Env)
    requires EnvOk(env) && NodesKeyed(nodes) && k in nodes && Coherent(family, def, nodes, env)
    requires forall q :: q in gone ==> |q| >= 41 && EntryOwner(q) == k
    requires nodes[k].graphId == def.graphId && HasIndexed(def, nodes[k]) ==> NodeEntry(def, nodes[k], env) in gone
    ensures Coherent(family - gone, def, nodes - {k}, env)
  {
    hide EnvOk, NodeEntry, EntryPrefix, HasIndexed, EntryOwner, NodeOf;
    OwnEntries(def, env);
    var family', nodes' := family - gone, nodes - {k};
    forall x | x in nodes' && nodes'[x].graphId == def.graphId && HasIndexed(def, nodes'[x])
      ensures NodeEntry(def, nodes'[x], env) in family'
    {
      assert x == NodeOf(nodes[x]) == EntryOwner(NodeEntry(def, nodes[x], env));
    }
    forall q | q in family' && EntryPrefix(def.graphId, def.name, env) <= q
      ensures && |q| >= 41 && EntryOwner(q) in nodes' && nodes'[EntryOwner(q)].graphId == def.graphId
              && HasIndexed(def, nodes'[EntryOwner(q)]) && q == NodeEntry(def, nodes'[EntryOwner(q)], env)
    {
      assert EntryOwner(q) in nodes;
    }
  }

  /** Once its entries are gone, a coherent index is coherent with the table that lacks the node. */
  lemma UnindexCoherent(family: IndexFamily, def: IndexDefinition, nodes: NodeTable, k: Bytes, env: Env)
    requires EnvOk(env) && FamilyOk(family, env) && NodesKeyed(nodes) && k in nodes
    requires Listed(family, def) && def.entityType.NodeEntity? && Coherent(family, def, nodes, env)
    ensures Coherent(UnindexAll(family, nodes[k], env), def, nodes - {k}, env)
  {
    var node := nodes[k];
    var defs := DefsAt(family, node.graphId, env);
    DefsAtListed(family, node.graphId, env);
    EntriesShaped(defs, node, env);
    hide EnvOk, FamilyOk, DefsAt, NodeEntry, Listed, EntryPrefix, HasIndexed, EntryOwner, Coherent, NodeOf;
    ShrunkCoherent(family, EntriesOf(defs, node, env), def, nodes, k, env);
  }

  lemma UnindexListed(family: IndexFamily, node: Node, env: Env)
    requires EnvOk(env) && FamilyOk(family, env)
    ensures forall d :: Listed(family, d) <==> Listed(UnindexAll(family, node, env), d)
  {
    var defs := DefsAt(family, node.graphId, env);
    DefsAtListed(family, node.graphId, env);
    EntriesShaped(defs, node, env);
    hide DefsAt, EntriesOf, FamilyOk, EnvOk, Listed;
    SameListed(family, UnindexAll(family, node, env), env);
  }

  lemma SameApart(family: IndexFamily, family': IndexFamily, def: IndexDefinition, env: Env)
    requires forall d :: Listed(family, d) <==> Listed(family', d)
    requires Apart(family, def, env)
    ensures Apart(family', def, env)
  {
  }

  /** Removing a node together with its entries keeps every coherent index coherent. */
  lemma UnindexKeeps(family: IndexFamily, nodes: NodeTable, k: Bytes, env: Env)
    requires EnvOk(env) && FamilyOk(family, env) && NodesKeyed(nodes) && k in nodes
    ensures Keeps(family, nodes, UnindexAll(family, nodes[k], env), nodes - {k}, env)
  {
    hide EnvOk, FamilyOk, Listed, EntryPrefix, Coherent, Apart, NodesKeyed, EntriesOf, DefsAt;
    var family' := UnindexAll(family, nodes[k], env);
    UnindexListed(family, nodes[k], env);
    forall def | Maintained(family, def, nodes, env) ensures Maintained(family', def, nodes - {k}, env) {
      UnindexCoherent(family, def, nodes, k, env);
      SameApart(family, family', def, env);
    }
    assert forall q :: q in family' ==> q in family && family'[q] == family[q];
  }

  // ----- indexing a node -----

  lemma IndexListed(family: IndexFamily, family': IndexFamily, required: set<Bytes>, allowed: set<Bytes>, env: Env)
    requires EnvOk(env) && Grown(family, family', required, allowed)
    requires forall q :: q in allowed ==> |q| >= 41 && q[16] == ENTRY_MARKER
    ensures forall d :: Listed(family, d) <==> Listed(family', d)
  {
    hide EnvOk, Listed;
    SameListed(family, family', env);
  }

  /** An entry of the node under the index's prefix is the index's own entry of the node. */
  lemma OwnEntry(family: IndexFamily, def: IndexDefinition, node: Node, env: Env, q: Bytes)
    requires EnvOk(env) && FamilyOk(family, env) && Listed(family, def) && Apart(family, def, env)
    requires q in EntriesOf(DefsAt(family, node.graphId, env), node, env)
    requires EntryPrefix(def.graphId, def.name, env) <= q
    ensures q == NodeEntry(def, node, env) && HasIndexed(def, node) && def.graphId == node.graphId
  {
    var defs := DefsAt(family, node.graphId, env);
    DefsAtListed(family, node.graphId, env);
    hide EnvOk, DefsAt, EntryPrefix, EncodeProperties, EntryOwner, HasIndexed, FamilyOk, Listed, EntryKey;
    var d :| d in defs && Covers(d, node) && q == NodeEntry(d, node, env);
    EntryShape(d, EncodeProperties(d, node, env), node.id, env);
    PrefixesApart(d.graphId, d.name, def.graphId, def.name, env, q);
    SameName(family, d, def);
  }

  /** Coherence after a node's entries came. */
  lemma GrownCoherent(family: IndexFamily, family': IndexFamily, required: set<Bytes>, allowed: set<Bytes>,
                      def: IndexDefinition, nodes: NodeTable, node: Node, env: Env)
    requires EnvOk(env) && NodeOf(node) !in nodes && Coherent(family, def, nodes, env)
    requires Grown(family, family', required, allowed)
    requires def.graphId == node.graphId && HasIndexed(def, node) ==> NodeEntry(def, node, env) in required
    requires forall q :: q in allowed && EntryPrefix(def.graphId, def.name, env) <= q ==>
               q == NodeEntry(def, node, env) && HasIndexed(def, node) && def.graphId == node.graphId
    ensures Coherent(family', def, nodes[NodeOf(node) := node], env)
  {
    hide EnvOk, NodeEntry, EntryPrefix, HasIndexed, EntryOwner, NodeOf;
    OwnEntries(def, env);
    var nodes' := nodes[NodeOf(node) := node];
    forall x | x in nodes' && nodes'[x].graphId == def.graphId && HasIndexed(def, nodes'[x])
      ensures NodeEntry(def, nodes'[x], env) in family'
    {
      if x != NodeOf(node) {
        assert NodeEntry(def, nodes[x], env) in family;
      }
    }
    forall q | q in family' && EntryPrefix(def.graphId, def.name, env) <= q
      ensures && |q| >= 41 && EntryOwner(q) in nodes' && nodes'[EntryOwner(q)].graphId == def.graphId
              && HasIndexed(def, nodes'[EntryOwner(q)]) && q == NodeEntry(def, nodes'[EntryOwner(q)], env)
    {
      if q in family {
        assert EntryOwner(q) in nodes;
      }
    }
  }

  /** Once its entries are written, a coherent index is coherent with the table that has the node. */
  lemma IndexCoherent(family: IndexFamily, def: IndexDefinition, nodes: NodeTable, node: Node, env: Env)
    requires EnvOk(env) && FamilyOk(family, env) && NodesKeyed(nodes) && NodeOf(node) !in nodes
    requires Maintained(family, def, nodes, env)
    ensures Coherent(IndexAll(family, DefsAt(family, node.graphId, env), node, env), def, nodes[NodeOf(node) := node], env)
  {
    var defs := DefsAt(family, node.graphId, env);
    DefsAtListed(family, node.graphId, env);
    IndexAllGrows(family, defs, node, env);
    hide EnvOk, FamilyOk, DefsAt, NodeEntry, EntriesOf, Listed, EntryPrefix, HasIndexed, IndexAll, NodeOf, Apart, Coherent,
      NodesKeyed, Grown;
    forall q | q in EntriesOf(defs, node, env) && EntryPrefix(def.graphId, def.name, env) <= q
      ensures q == NodeEntry(def, node, env) && HasIndexed(def, node) && def.graphId == node.graphId
    {
      OwnEntry(family, def, node, env, q);
    }
    GrownCoherent(family, IndexAll(family, defs, node, env), RequiredOf(defs, node, env), EntriesOf(defs, node, env), def,
                  nodes, node, env);
  }

  lemma OwnedEntry(family: IndexFamily, node: Node, env: Env, d: IndexDefinition)
    requires EnvOk(env) && FamilyOk(family, env) && d in DefsAt(family, node.graphId, env)
    ensures Listed(family, d) && EntryPrefix(d.graphId, d.name, env) <= NodeEntry(d, node, env)
  {
    hide *;
    DefsAtListed(family, node.graphId, env);
    EntryShape(d, EncodeProperties(d, node, env), node.id, env);
    NodeEntryIs(d, node, env);
  }

  lemma NodeEntryIs(d: IndexDefinition, node: Node, env: Env)
    ensures NodeEntry(d, node, env) == EntryKey(d, EncodeProperties(d, node, env), node.id, env)
  {
  }

  lemma OwnedEntries(family: IndexFamily, node: Node, env: Env)
    requires EnvOk(env) && FamilyOk(family, env)
    ensures forall q :: q in EntriesOf(DefsAt(family, node.graphId, env), node, env) ==>
              exists d :: Listed(family, d) && EntryPrefix(d.graphId, d.name, env) <= q
  {
    hide EnvOk, FamilyOk, DefsAt, NodeEntry, Listed, EntryPrefix, Covers;
    var defs := DefsAt(family, node.graphId, env);
    forall q | q in EntriesOf(defs, node, env) ensures exists d :: Listed(family, d) && EntryPrefix(d.graphId, d.name, env) <= q {
      var d :| d in defs && Covers(d, node) && q == NodeEntry(d, node, env);
      OwnedEntry(family, node, env, d);
    }
  }

  lemma GrownNoOrphans(family: IndexFamily, family': IndexFamily, required: set<Bytes>, allowed: set<Bytes>, env: Env)
    requires NoOrphans(family, env) && Grown(family, family', required, allowed)
    requires forall d :: Listed(family, d) <==> Listed(family', d)
    requires forall q :: q in allowed ==> exists d :: Listed(family, d) && EntryPrefix(d.graphId, d.name, env) <= q
    ensures NoOrphans(family', env)
  {
    hide Listed, EntryPrefix;
    forall q | q in family' && family'[q].Entry?
      ensures exists d :: Listed(family', d) && EntryPrefix(d.graphId, d.name, env) <= q
    {
      var d :| Listed(family, d) && EntryPrefix(d.graphId, d.name, env) <= q;
      assert Listed(family', d);
    }
  }

  /** Adding a node together with its entries keeps every coherent index coherent. */
  lemma IndexKeeps(family: IndexFamily, nodes: NodeTable, node: Node, env: Env)
    requires EnvOk(env) && FamilyOk(family, env) && NodesKeyed(nodes) && NodeOf(node) !in nodes
    ensures Keeps(family, nodes, IndexAll(family, DefsAt(family, node.graphId, env), node, env), nodes[NodeOf(node) := node], env)
  {
    var defs := DefsAt(family, node.graphId, env);
    var family', nodes' := IndexAll(family, defs, node, env), nodes[NodeOf(node) := node];
    IndexAllGrows(family, defs, node, env);
    DefsAtListed(family, node.graphId, env);
    EntriesShaped(defs, node, env);
    IndexListed(family, family', RequiredOf(defs, node, env), EntriesOf(defs, node, env), env);
    OwnedEntries(family, node, env);
    hide EnvOk, FamilyOk, DefsAt, EntriesOf, RequiredOf, Listed, IndexAll, EntryOwner, NodeOf, Apart, Coherent, Grown,
      NoOrphans,
      EntryPrefix;
    forall def | Maintained(family, def, nodes, env) ensures Maintained(family', def, nodes', env) {
      IndexCoherent(family, def, nodes, node, env);
      SameApart(family, family', def, env);
    }
    if NoOrphans(family, env) {
      GrownNoOrphans(family, family', RequiredOf(defs, node, env), EntriesOf(defs, node, env), env);
    }
  }

  lemma KeepsTransitive(f: IndexFamily, m: NodeTable, f': IndexFamily, m': NodeTable, f'': IndexFamily, m'': NodeTable,
                        env: Env)
    requires Keeps(f, m, f', m', env) && Keeps(f', m', f'', m'', env)
    ensures Keeps(f, m, f'', m'', env)
  {
    hide Maintained, NoOrphans;
  }

  lemma KeepsReflexive(f: IndexFamily, m: NodeTable, env: Env)
    ensures Keeps(f, m, f, m, env)
  {
  }

  lemma UnindexedFamilyOk(family: IndexFamily, node: Node, env: Env)
    requires EnvOk(env) && FamilyOk(family, env)
    ensures FamilyOk(UnindexAll(family, node, env), env)
  {
    hide EnvOk, FamilyOk, DefsAt, EntriesOf;
    FamilyAfterRemoval(family, EntriesOf(DefsAt(family, node.graphId, env), node, env), env);
  }

  lemma WithoutKeyed(nodes: NodeTable, k: Bytes)
    requires NodesKeyed(nodes)
    ensures NodesKeyed(nodes - {k})
  {
  }

  /** Rewriting a node: take its old entries out, put its new ones in. */
  lemma RewriteKeeps(family: IndexFamily, nodes: NodeTable, node: Node, env: Env)
    requires EnvOk(env) && FamilyOk(family, env) && NodesKeyed(nodes) && NodeOf(node) in nodes
    ensures var between := UnindexAll(family, nodes[NodeOf(node)], env);
            && FamilyOk(between, env)
            && Keeps(family, nodes, IndexAll(between, DefsAt(between, node.graphId, env), node, env),
                     nodes[NodeOf(node) := node], env)
  {
    hide *;
    var k := NodeOf(node);
    var between := UnindexAll(family, nodes[k], env);
    UnindexedFamilyOk(family, nodes[k], env);
    UnindexKeeps(family, nodes, k, env);
    WithoutKeyed(nodes, k);
    IndexKeeps(between, nodes - {k}, node, env);
    assert (nodes - {k})[k := node] == nodes[k := node];
    KeepsTransitive(family, nodes, between, nodes - {k}, IndexAll(between, DefsAt(between, node.graphId, env), node, env),
                    nodes[k := node], env);
  }

  // ----- creating and dropping indexes -----

  /** No recorded index of the graph has the name, or a name with the same hash. */
  ghost predicate Fresh(family: IndexFamily, graphId: Uuid, name: string, env: Env) {
    forall d :: Listed(family, d) && d.graphId == graphId ==> env.hash(d.name) != env.hash(name)
  }

  ghost function Created(family: IndexFamily, def: IndexDefinition, list: seq<Node>, env: Env): IndexFamily {
    Backfill(family[MetaKey(def.graphId, def.name) := Meta(def)], def, list, env)
  }

  lemma MetaListed(family: IndexFamily, def: IndexDefinition)
    ensures Listed(family[MetaKey(def.graphId, def.name) := Meta(def)], def)
    ensures forall d: IndexDefinition :: !(d.graphId == def.graphId && d.name == def.name) ==>
              (Listed(family, d) <==> Listed(family[MetaKey(def.graphId, def.name) := Meta(def)], d))
    ensures forall d: IndexDefinition :: d.graphId == def.graphId && d.name == def.name ==>
              (Listed(family[MetaKey(def.graphId, def.name) := Meta(def)], d) ==> d == def)
  {
    forall d: IndexDefinition | !(d.graphId == def.graphId && d.name == def.name)
      ensures MetaKey(d.graphId, d.name) != MetaKey(def.graphId, def.name)
    {
      if MetaKey(d.graphId, d.name) == MetaKey(def.graphId, def.name) {
        MetaKeyInjective(d.graphId, d.name, def.graphId, def.name);
      }
    }
    hide MetaKey;
  }

  lemma BackfillShaped(def: IndexDefinition, list: seq<Node>, env: Env)
    requires EnvOk(env)
    ensures forall q :: q in BackfillEntries(def, list, env) ==>
              |q| >= 41 && q[16] == ENTRY_MARKER && EntryPrefix(def.graphId, def.name, env) <= q
  {
    hide EnvOk, EncodeProperties, HasIndexed, EntryPrefix, EntryOwner;
    forall n ensures var q := NodeEntry(def, n, env);
                     |q| >= 41 && q[16] == ENTRY_MARKER && EntryPrefix(def.graphId, def.name, env) <= q
    {
      EntryShape(def, EncodeProperties(def, n, env), n.id, env);
    }
  }

  /** What an index creation leaves in the family. */
  lemma CreatedListed(family: IndexFamily, def: IndexDefinition, list: seq<Node>, env: Env)
    requires EnvOk(env) && FamilyOk(family, env)
    ensures FamilyOk(Created(family, def, list, env), env)
    ensures Listed(Created(family, def, list, env), def)
    ensures forall d: IndexDefinition :: !(d.graphId == def.graphId && d.name == def.name) ==>
              (Listed(family, d) <==> Listed(Created(family, def, list, env), d))
    ensures forall d: IndexDefinition :: d.graphId == def.graphId && d.name == def.name ==>
              (Listed(Created(family, def, list, env), d) ==> d == def)
  {
    var middle := family[MetaKey(def.graphId, def.name) := Meta(def)];
    FamilyAfterMeta(family, def, env);
    MetaListed(family, def);
    BackfillGrows(middle, def, list, env);
    BackfillShaped(def, list, env);
    var entries := BackfillEntries(def, list, env);
    hide EnvOk, FamilyOk, Listed, MetaKey, Backfill, BackfillEntries, Grown;
    IndexListed(middle, Backfill(middle, def, list, env), if def.unique then {} else entries, entries, env);
  }

  /** The two names cannot be told apart in an entry key of the graph. */
  predicate SameHash(def: IndexDefinition, graphId: Uuid, name: string, env: Env) {
    def.graphId == graphId && env.hash(def.name) == env.hash(name)
  }

  lemma MetaNotEntry(graphId: Uuid, name: string, g: Uuid, other: string, env: Env)
    ensures !(EntryPrefix(g, other, env) <= MetaKey(graphId, name))
  {
    var p, k := EntryPrefix(g, other, env), MetaKey(graphId, name);
    assert p[16] == ENTRY_MARKER && k[16] == META_MARKER;
  }

  /** Under another index's prefix a creation adds nothing. */
  lemma CreatedElsewhere(family: IndexFamily, def: IndexDefinition, list: seq<Node>, d: IndexDefinition, env: Env)
    requires EnvOk(env) && FamilyOk(family, env) && !SameHash(d, def.graphId, def.name, env)
    ensures forall q :: EntryPrefix(d.graphId, d.name, env) <= q ==>
              (q in Created(family, def, list, env) <==> q in family)
  {
    var middle := family[MetaKey(def.graphId, def.name) := Meta(def)];
    FamilyAfterMeta(family, def, env);
    BackfillGrows(middle, def, list, env);
    BackfillShaped(def, list, env);
    MetaNotEntry(def.graphId, def.name, d.graphId, d.name, env);
    hide EnvOk, FamilyOk, MetaKey, Backfill, BackfillEntries, EntryPrefix;
    forall q | EntryPrefix(d.graphId, d.name, env) <= q
      ensures q in Created(family, def, list, env) <==> q in family
    {
      if q in BackfillEntries(def, list, env) {
        PrefixesApart(d.graphId, d.name, def.graphId, def.name, env, q);
      }
    }
  }

  /** What lies under the index's prefix decides its coherence. */
  lemma CoherentByPrefix(family: IndexFamily, family': IndexFamily, def: IndexDefinition, nodes: NodeTable, env: Env)
    requires EnvOk(env) && Coherent(family, def, nodes, env)
    requires forall q :: EntryPrefix(def.graphId, def.name, env) <= q ==> (q in family' <==> q in family)
    ensures Coherent(family', def, nodes, env)
  {
    hide EnvOk, EntryPrefix, HasIndexed, EntryOwner, EncodeProperties, EntryKey, FamilyOk;
    forall k | k in nodes && nodes[k].graphId == def.graphId && HasIndexed(def, nodes[k])
      ensures NodeEntry(def, nodes[k], env) in family'
    {
      EntryShape(def, EncodeProperties(def, nodes[k], env), nodes[k].id, env);
    }
  }

  /** Creating an index leaves the other indexes coherent. */
  lemma CreatedKeepsOthers(family: IndexFamily, nodes: NodeTable, def: IndexDefinition, list: seq<Node>, d: IndexDefinition,
                           env: Env)
    requires EnvOk(env) && FamilyOk(family, env)
    requires Maintained(family, d, nodes, env) && !SameHash(d, def.graphId, def.name, env)
    ensures Maintained(Created(family, def, list, env), d, nodes, env)
  {
    CreatedListed(family, def, list, env);
    CreatedElsewhere(family, def, list, d, env);
    hide EnvOk, FamilyOk, Listed, Created, EntryPrefix, Coherent;
    CoherentByPrefix(family, Created(family, def, list, env), d, nodes, env);
  }

  lemma CreatedNoOrphans(family: IndexFamily, def: IndexDefinition, list: seq<Node>, env: Env)
    requires EnvOk(env) && FamilyOk(family, env) && NoOrphans(family, env)
    ensures NoOrphans(Created(family, def, list, env), env)
  {
    var middle := family[MetaKey(def.graphId, def.name) := Meta(def)];
    FamilyAfterMeta(family, def, env);
    BackfillGrows(middle, def, list, env);
    BackfillShaped(def, list, env);
    CreatedListed(family, def, list, env);
    var family' := Created(family, def, list, env);
    hide EnvOk, FamilyOk, MetaKey, Backfill, BackfillEntries, EntryPrefix, Listed;
    forall q | q in family' && family'[q].Entry?
      ensures exists d :: Listed(family', d) && EntryPrefix(d.graphId, d.name, env) <= q
    {
      if q in middle && q in family && family[q].Entry? {
        var d :| Listed(family, d) && EntryPrefix(d.graphId, d.name, env) <= q;
        assert Listed(family', if d.graphId == def.graphId && d.name == def.name then def else d);
      } else {
        assert Listed(family', def);
      }
    }
  }

  /** A fresh index has no entries before its backfill. */
  lemma FreshEmpty(family: IndexFamily, graphId: Uuid, name: string, env: Env)
    requires EnvOk(env) && FamilyOk(family, env) && NoOrphans(family, env) && Fresh(family, graphId, name, env)
    ensures forall q :: q in family ==> !(EntryPrefix(graphId, name, env) <= q)
  {
    hide EnvOk, EntryPrefix, Listed, FamilyOk;
    forall q | q in family ensures !(EntryPrefix(graphId, name, env) <= q) {
      if EntryPrefix(graphId, name, env) <= q {
        EntryUnder(family, graphId, name, env, q);
        var d :| Listed(family, d) && EntryPrefix(d.graphId, d.name, env) <= q;
        PrefixesApart(graphId, name, d.graphId, d.name, env, q);
      }
    }
  }

  lemma EntryUnder(family: IndexFamily, graphId: Uuid, name: string, env: Env, q: Bytes)
    requires FamilyOk(family, env) && q in family && EntryPrefix(graphId, name, env) <= q
    ensures family[q].Entry?
  {
    if family[q].Meta? {
      MetaNotEntry(family[q].def.graphId, family[q].def.name, graphId, name, env);
    }
  }

  /** Entries are made only of stored nodes of the index's graph. */
  ghost predicate FromGraph(list: seq<Node>, nodes: NodeTable, graphId: Uuid) {
    forall n :: n in list ==> NodeOf(n) in nodes && nodes[NodeOf(n)] == n && n.graphId == graphId
  }

  /** Under a fresh index's prefix there is exactly what the backfill put there. */
  lemma CreatedEntries(family: IndexFamily, def: IndexDefinition, list: seq<Node>, env: Env)
    requires EnvOk(env) && FamilyOk(family, env) && NoOrphans(family, env)
    requires Fresh(family, def.graphId, def.name, env) && !def.unique
    ensures forall q :: EntryPrefix(def.graphId, def.name, env) <= q ==>
              (q in Created(family, def, list, env) <==> q in BackfillEntries(def, list, env))
    ensures forall q :: q in BackfillEntries(def, list, env) ==> q in Created(family, def, list, env)
  {
    var middle := family[MetaKey(def.graphId, def.name) := Meta(def)];
    FamilyAfterMeta(family, def, env);
    BackfillGrows(middle, def, list, env);
    MetaNotEntry(def.graphId, def.name, def.graphId, def.name, env);
    FreshEmpty(family, def.graphId, def.name, env);
    hide EnvOk, FamilyOk, MetaKey, Backfill, BackfillEntries, EntryPrefix, NoOrphans, Fresh;
  }

  /** The entries made of a list are those a coherent index has if and only if the list has every covered node. */
  lemma BackfillCoherent(family: IndexFamily, nodes: NodeTable, def: IndexDefinition, list: seq<Node>, env: Env)
    requires EnvOk(env) && NodesKeyed(nodes) && FromGraph(list, nodes, def.graphId)
    requires forall q :: EntryPrefix(def.graphId, def.name, env) <= q ==> (q in family <==> q in BackfillEntries(def, list, env))
    requires forall q :: q in BackfillEntries(def, list, env) ==> q in family
    ensures Coherent(family, def, nodes, env) <==> forall n :: Covered(def, nodes, n) ==> n in list
  {
    hide *;
    if forall n :: Covered(def, nodes, n) ==> n in list {
      AllBackfilled(family, nodes, def, list, env);
    } else {
      var n :| Covered(def, nodes, n) && n !in list;
      NotBackfilled(family, nodes, def, list, n, env);
    }
  }

  lemma AllBackfilled(family: IndexFamily, nodes: NodeTable, def: IndexDefinition, list: seq<Node>, env: Env)
    requires EnvOk(env) && NodesKeyed(nodes) && FromGraph(list, nodes, def.graphId)
    requires forall q :: EntryPrefix(def.graphId, def.name, env) <= q ==> (q in family <==> q in BackfillEntries(def, list, env))
    requires forall q :: q in BackfillEntries(def, list, env) ==> q in family
    requires forall n :: Covered(def, nodes, n) ==> n in list
    ensures Coherent(family, def, nodes, env)
  {
    hide EnvOk, EntryPrefix, HasIndexed, EntryOwner, NodeEntry, NodeOf;
    OwnEntries(def, env);
    forall k | k in nodes && nodes[k].graphId == def.graphId && HasIndexed(def, nodes[k])
      ensures NodeEntry(def, nodes[k], env) in family
    {
      assert Covered(def, nodes, nodes[k]);
      assert NodeEntry(def, nodes[k], env) in BackfillEntries(def, list, env);
    }
  }

  lemma NotBackfilled(family: IndexFamily, nodes: NodeTable, def: IndexDefinition, list: seq<Node>, n: Node, env: Env)
    requires EnvOk(env) && FromGraph(list, nodes, def.graphId) && Covered(def, nodes, n) && n !in list
    requires forall q :: EntryPrefix(def.graphId, def.name, env) <= q ==> (q in family <==> q in BackfillEntries(def, list, env))
    ensures !Coherent(family, def, nodes, env)
  {
    hide EnvOk, EntryPrefix, HasIndexed, EntryOwner, NodeEntry, NodeOf, Coherent;
    if Coherent(family, def, nodes, env) {
      EntryIn(family, def, nodes, env, n);
      var m :| m in list && HasIndexed(def, m) && NodeEntry(def, m, env) == NodeEntry(def, n, env);
      OwnEntries(def, env);
    }
  }

  /**
   A new non-unique node index under a fresh name is coherent if and only if
   its backfill was given every node of the graph that has an indexed property.
   */
  lemma CreatedMaintained(family: IndexFamily, nodes: NodeTable, def: IndexDefinition, list: seq<Node>, env: Env)
    requires EnvOk(env) && FamilyOk(family, env) && NoOrphans(family, env) && NodesKeyed(nodes)
    requires Fresh(family, def.graphId, def.name, env) && def.entityType.NodeEntity? && !def.unique
    requires FromGraph(list, nodes, def.graphId)
    ensures Maintained(Created(family, def, list, env), def, nodes, env) <==>
              forall n :: Covered(def, nodes, n) ==> n in list
  {
    CreatedListed(family, def, list, env);
    CreatedEntries(family, def, list, env);
    hide EnvOk, FamilyOk, Listed, Created, EntryPrefix, Coherent, BackfillEntries, NoOrphans, FromGraph, NodesKeyed, Covered;
    BackfillCoherent(Created(family, def, list, env), nodes, def, list, env);
    FreshApart(family, Created(family, def, list, env), def, env);
  }

  lemma FreshApart(family: IndexFamily, family': IndexFamily, def: IndexDefinition, env: Env)
    requires Fresh(family, def.graphId, def.name, env)
    requires forall d: IndexDefinition :: !(d.graphId == def.graphId && d.name == def.name) ==>
              (Listed(family, d) <==> Listed(family', d))
    ensures Apart(family', def, env)
  {
    hide Listed;
  }

  lemma DroppedListed(family: IndexFamily, graphId: Uuid, name: string, env: Env)
    ensures forall d: IndexDefinition :: Listed(Dropped(family, graphId, name, env), d) <==>
              Listed(family, d) && !(d.graphId == graphId && d.name == name)
  {
    forall d: IndexDefinition
      ensures MetaKey(d.graphId, d.name) == MetaKey(graphId, name) <==> d.graphId == graphId && d.name == name
      ensures !(EntryPrefix(graphId, name, env) <= MetaKey(d.graphId, d.name))
    {
      if MetaKey(d.graphId, d.name) == MetaKey(graphId, name) {
        MetaKeyInjective(d.graphId, d.name, graphId, name);
      }
      MetaNotEntry(d.graphId, d.name, graphId, name, env);
    }
    hide MetaKey, EntryPrefix;
  }

  /** Dropping an index leaves the others coherent and no entry of its own behind. */
  lemma DroppedKeepsOthers(family: IndexFamily, nodes: NodeTable, graphId: Uuid, name: string, d: IndexDefinition, env: Env)
    requires EnvOk(env) && Maintained(family, d, nodes, env) && !SameHash(d, graphId, name, env)
    ensures Maintained(Dropped(family, graphId, name, env), d, nodes, env)
  {
    DroppedListed(family, graphId, name, env);
    hide EnvOk, Listed, EntryPrefix, Coherent, MetaKey;
    forall q | EntryPrefix(d.graphId, d.name, env) <= q
      ensures q in Dropped(family, graphId, name, env) <==> q in family
    {
      if EntryPrefix(graphId, name, env) <= q {
        PrefixesApart(d.graphId, d.name, graphId, name, env, q);
      }
      MetaNotEntry(graphId, name, d.graphId, d.name, env);
    }
    CoherentByPrefix(family, Dropped(family, graphId, name, env), d, nodes, env);
  }

  lemma DroppedNoOrphans(family: IndexFamily, graphId: Uuid, name: string, env: Env)
    requires NoOrphans(family, env)
    ensures NoOrphans(Dropped(family, graphId, name, env), env)
    ensures forall q :: q in Dropped(family, graphId, name, env) ==> !(EntryPrefix(graphId, name, env) <= q)
  {
    DroppedListed(family, graphId, name, env);
    hide Listed, EntryPrefix, MetaKey;
  }

  lemma KeyInGraph(n: Node, graphId: Uuid)
    ensures graphId <= NodeOf(n) <==> n.graphId == graphId
  {
    assert NodeOf(n)[..16] == n.graphId;
  }

  lemma UnderGraph(d: IndexDefinition, graphId: Uuid, env: Env, q: Bytes)
    requires EntryPrefix(d.graphId, d.name, env) <= q
    ensures graphId <= q <==> d.graphId == graphId
  {
    assert q[..16] == EntryPrefix(d.graphId, d.name, env)[..16] == d.graphId;
  }

  /** Dropping a graph leaves the indexes of other graphs coherent. */
  lemma DropGraphCoherent(family: IndexFamily, nodes: NodeTable, graphId: Uuid, d: IndexDefinition, env: Env)
    requires EnvOk(env) && NodesKeyed(nodes) && Coherent(family, d, nodes, env) && d.graphId != graphId
    ensures Coherent(WithoutGraph(family, graphId), d, WithoutGraph(nodes, graphId), env)
  {
    hide EnvOk, EntryPrefix, HasIndexed, EncodeProperties, EntryKey, EntryOwner, NodeOf;
    var family', nodes' := WithoutGraph(family, graphId), WithoutGraph(nodes, graphId);
    forall k | k in nodes && nodes[k].graphId == d.graphId ensures !(graphId <= k) {
      KeyInGraph(nodes[k], graphId);
    }
    forall k | k in nodes' && nodes'[k].graphId == d.graphId && HasIndexed(d, nodes'[k])
      ensures NodeEntry(d, nodes'[k], env) in family'
    {
      EntryShape(d, EncodeProperties(d, nodes[k], env), nodes[k].id, env);
      UnderGraph(d, graphId, env, NodeEntry(d, nodes[k], env));
    }
    forall q | q in family' && EntryPrefix(d.graphId, d.name, env) <= q
      ensures && |q| >= 41 && EntryOwner(q) in nodes' && nodes'[EntryOwner(q)].graphId == d.graphId
              && HasIndexed(d, nodes'[EntryOwner(q)]) && q == NodeEntry(d, nodes'[EntryOwner(q)], env)
    {
      assert EntryOwner(q) in nodes;
    }
  }

  lemma WithoutGraphListed(family: IndexFamily, graphId: Uuid)
    ensures forall d :: Listed(WithoutGraph(family, graphId), d) <==> Listed(family, d) && d.graphId != graphId
  {
    forall d: IndexDefinition ensures graphId <= MetaKey(d.graphId, d.name) <==> d.graphId == graphId {
      assert MetaKey(d.graphId, d.name)[..16] == d.graphId;
    }
    hide MetaKey;
  }

  lemma DropGraphKeepsOthers(family: IndexFamily, nodes: NodeTable, graphId: Uuid, d: IndexDefinition, env: Env)
    requires EnvOk(env) && NodesKeyed(nodes) && Maintained(family, d, nodes, env) && d.graphId != graphId
    ensures Maintained(WithoutGraph(family, graphId), d, WithoutGraph(nodes, graphId), env)
  {
    hide EnvOk, Listed, Coherent, NodesKeyed;
    DropGraphCoherent(family, nodes, graphId, d, env);
    WithoutGraphListed(family, graphId);
  }

  lemma DropGraphNoOrphans(family: IndexFamily, graphId: Uuid, env: Env)
    requires NoOrphans(family, env)
    ensures NoOrphans(WithoutGraph(family, graphId), env)
  {
    hide Listed, EntryPrefix;
    WithoutGraphListed(family, graphId);
    var family' := WithoutGraph(family, graphId);
    forall q | q in family' && family'[q].Entry?
      ensures exists d :: Listed(family', d) && EntryPrefix(d.graphId, d.name, env) <= q
    {
      var d :| Listed(family, d) && EntryPrefix(d.graphId, d.name, env) <= q;
      UnderGraph(d, graphId, env, q);
      assert Listed(family', d);
    }
  }
}
