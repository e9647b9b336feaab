/**
 Secondary property indexes: metadata and entries in one column family, kept as
 keys only, looked up by prefix and scanned by range.
 */
module PropertyIndex {
  import opened Bytes
  import opened OrderedStore
  import opened Wrappers
  import opened Values
  import opened ValueCodec
  import opened GraphKeys

  datatype EntityType = NodeEntity | EdgeEntity

  datatype IndexDefinition = IndexDefinition(
    name: string,
    graphId: Uuid,
    entityType: EntityType,
    propertyNames: seq<string>,
    unique: bool)

  datatype IndexRecord = Meta(def: IndexDefinition) | Entry

  type IndexFamily = map<Bytes, IndexRecord>

  datatype IndexError = UniqueViolation

  /** The code this model does not look into: the hash of a name and the serializer of composite values. */
  datatype Env = Env(hash: string -> Bytes, codec: Codec)

  ghost predicate EnvOk(env: Env) {
    && (forall name :: |env.hash(name)| == 8)
    && (forall v :: Fits(v, env.codec))
  }

  const META_MARKER: byte := 0
  const ENTRY_MARKER: byte := 1

  function MetaPrefix(graphId: Uuid): Bytes {
    graphId + [META_MARKER]
  }

  function MetaKey(graphId: Uuid, name: string): Bytes {
    MetaPrefix(graphId) + Utf8(name)
  }

  function EntryPrefix(graphId: Uuid, name: string, env: Env): Bytes {
    graphId + [ENTRY_MARKER] + env.hash(name)
  }

  function EntryValuePrefix(def: IndexDefinition, encoded: Bytes, env: Env): Bytes {
    EntryPrefix(def.graphId, def.name, env) + encoded
  }

  function EntryKey(def: IndexDefinition, encoded: Bytes, id: Uuid, env: Env): Bytes {
    EntryValuePrefix(def, encoded, env) + id
  }

  /** The last sixteen bytes of an entry. */
  function EntityId(k: Bytes): Uuid
    requires |k| >= 16
  {
    k[|k| - 16..]
  }

  /** The indexed properties in order; a missing one counts as null. */
  function IndexedValues(def: IndexDefinition, node: Node): (r: seq<Value>)
    ensures |r| == |def.propertyNames|
  {
    seq(|def.propertyNames|, i requires 0 <= i < |def.propertyNames| =>
      if def.propertyNames[i] in node.properties then node.properties[def.propertyNames[i]] else Null)
  }

  function EncodeProperties(def: IndexDefinition, node: Node, env: Env): Bytes {
    EncodeValues(IndexedValues(def, node), env.codec)
  }

  predicate HasIndexed(def: IndexDefinition, node: Node) {
    exists p | p in def.propertyNames :: p in node.properties
  }

  function NodeEntry(def: IndexDefinition, node: Node, env: Env): Bytes {
    EntryKey(def, EncodeProperties(def, node, env), node.id, env)
  }

  // ----- the family -----

  /** Metadata sits under metadata keys and entries under entry keys. */
  ghost predicate FamilyOk(family: IndexFamily, env: Env) {
    forall k :: k in family ==>
      && |k| >= 17
      && (family[k].Meta? ==> k == MetaKey(family[k].def.graphId, family[k].def.name))
      && (family[k].Entry? ==> |k| >= 41 && k[16] == ENTRY_MARKER)
  }

  /** The index is recorded in the family. */
  ghost predicate Listed(family: IndexFamily, def: IndexDefinition) {
    var k := MetaKey(def.graphId, def.name);
    k in family && family[k] == Meta(def)
  }

  /** The entries of an index are exactly one per node of its graph that has an indexed property. */
  ghost predicate Coherent(family: IndexFamily, def: IndexDefinition, nodes: NodeTable, env: Env) {
    && (forall k :: k in nodes && nodes[k].graphId == def.graphId && HasIndexed(def, nodes[k]) ==>
          NodeEntry(def, nodes[k], env) in family)
    && (forall q :: q in family && EntryPrefix(def.graphId, def.name, env) <= q ==>
          |q| >= 41 && EntryOwner(q) in nodes
          && nodes[EntryOwner(q)].graphId == def.graphId && HasIndexed(def, nodes[EntryOwner(q)])
          && q == NodeEntry(def, nodes[EntryOwner(q)], env))
  }

  /** The node an entry belongs to. */
  function EntryOwner(q: Bytes): Bytes
    requires |q| >= 41
  {
    q[..16] + q[|q| - 16..]
  }

  lemma EntryShape(def: IndexDefinition, encoded: Bytes, id: Uuid, env: Env)
    requires EnvOk(env)
    ensures var q := EntryKey(def, encoded, id, env);
            && |q| >= 41 && q[16] == ENTRY_MARKER
            && EntryPrefix(def.graphId, def.name, env) <= EntryValuePrefix(def, encoded, env) <= q
            && EntityId(q) == id && EntryOwner(q) == NodeKey(def.graphId, id)
  {
    var q := EntryKey(def, encoded, id, env);
    var p := EntryPrefix(def.graphId, def.name, env);
    assert q[..16] == def.graphId && q[|q| - 16..] == id;
    assert q[..|p|] == p && q[..|p + encoded|] == p + encoded;
  }

  /** The layout of the two kinds of keys: graph, marker, and then the name or the hash, the values and the id. */
  lemma KeyLayout(def: IndexDefinition, encoded: Bytes, id: Uuid, env: Env)
    requires EnvOk(env)
    ensures var k := MetaKey(def.graphId, def.name);
            k[..16] == def.graphId && k[16] == 0 && k[17..] == Utf8(def.name)
    ensures var q := EntryKey(def, encoded, id, env);
            && q[..16] == def.graphId && q[16] == 1 && q[17..25] == env.hash(def.name)
            && q[25..|q| - 16] == encoded && q[|q| - 16..] == id
  {
    var q := EntryKey(def, encoded, id, env);
    assert |EntryPrefix(def.graphId, def.name, env)| == 25;
    assert q[25..|q| - 16] == encoded;
  }

  lemma MetaShape(graphId: Uuid, name: string)
    ensures |MetaKey(graphId, name)| >= 17 && MetaKey(graphId, name)[16] == META_MARKER
    ensures MetaPrefix(graphId) <= MetaKey(graphId, name)
  {
  }

  lemma MetaKeyInjective(g: Uuid, a: string, h: Uuid, b: string)
    requires MetaKey(g, a) == MetaKey(h, b)
    ensures g == h && a == b
  {
    assert MetaKey(g, a)[..16] == g && MetaKey(h, b)[..16] == h;
    assert MetaKey(g, a)[17..] == Utf8(a) && MetaKey(h, b)[17..] == Utf8(b);
    Utf8Injective(a, b);
  }

  /** Entries of indexes with different name hashes, or of different graphs, never meet. */
  lemma PrefixesApart(g: Uuid, a: string, h: Uuid, b: string, env: Env, q: Bytes)
    requires EnvOk(env) && EntryPrefix(g, a, env) <= q && EntryPrefix(h, b, env) <= q
    ensures g == h && env.hash(a) == env.hash(b)
  {
    var p, r := EntryPrefix(g, a, env), EntryPrefix(h, b, env);
    assert p == q[..25] == r;
    assert p[..16] == g && r[..16] == h && p[17..] == env.hash(a) && r[17..] == env.hash(b);
  }

  // ----- scans -----

  ghost function IdsAt(ks: seq<Bytes>): (r: seq<Uuid>)
    requires forall k :: k in ks ==> |k| >= 16
    ensures |r| == |ks| && forall i :: 0 <= i < |ks| ==> ks[i] in ks && r[i] == EntityId(ks[i])
  {
    assert forall i :: 0 <= i < |ks| ==> ks[i] in ks;
    seq(|ks|, i requires 0 <= i < |ks| => EntityId(ks[i]))
  }

  /** An entry with the node's values belongs to another node. */
  ghost predicate Clashes(family: IndexFamily, def: IndexDefinition, node: Node, env: Env) {
    exists q :: q in family && EntryValuePrefix(def, EncodeProperties(def, node, env), env) <= q
                && |q| >= 16 && EntityId(q) != node.id
  }

  lemma FamilyAfterMeta(family: IndexFamily, def: IndexDefinition, env: Env)
    requires FamilyOk(family, env)
    ensures FamilyOk(family[MetaKey(def.graphId, def.name) := Meta(def)], env)
  {
    MetaShape(def.graphId, def.name);
  }

  lemma FamilyAfterEntry(family: IndexFamily, def: IndexDefinition, encoded: Bytes, id: Uuid, env: Env)
    requires FamilyOk(family, env) && EnvOk(env)
    ensures FamilyOk(family[EntryKey(def, encoded, id, env) := Entry], env)
  {
    EntryShape(def, encoded, id, env);
    hide EntryKey;
  }

  lemma FamilyAfterRemoval(family: IndexFamily, removed: set<Bytes>, env: Env)
    requires FamilyOk(family, env)
    ensures FamilyOk(family - removed, env)
  {
    hide MetaKey;
  }

  function RangeStart(def: IndexDefinition, v: Value, env: Env): Bytes {
    EntryValuePrefix(def, EncodeValues([v], env.codec), env)
  }

  predicate InRange(prefix: Bytes, endKey: Bytes, k: Bytes) {
    prefix <= k && Less(k, endKey)
  }

  ghost function KeysBetween(keys: set<Bytes>, prefix: Bytes, startKey: Bytes, endKey: Bytes): (r: seq<Bytes>)
    ensures forall k :: k in r <==> k in keys && AtMost(startKey, k) && InRange(prefix, endKey, k)
  {
    SortedKeys(set k | k in keys && AtMost(startKey, k) && InRange(prefix, endKey, k))
  }

  lemma BetweenSorted(keys: set<Bytes>, prefix: Bytes, startKey: Bytes, endKey: Bytes)
    ensures StrictlySorted(KeysBetween(keys, prefix, startKey, endKey))
  {
    hide SortedKeys, Less, StrictlySorted;
    SortedKeysSorted((set k | k in keys && AtMost(startKey, k) && InRange(prefix, endKey, k)));
  }

  /** The entries of the index from the encoded start on and below the encoded end, in order. */
  ghost function RangeKeys(family: IndexFamily, def: IndexDefinition, start: Value, end: Value, env: Env): seq<Bytes> {
    KeysBetween(family.Keys, EntryPrefix(def.graphId, def.name, env), RangeStart(def, start, env), RangeStart(def, end, env))
  }

  lemma NotAtMost(a: Bytes, b: Bytes)
    requires !AtMost(a, b)
    ensures Less(b, a)
  {
    LessTotal(a, b);
  }

  lemma RangeScanStops(family: IndexFamily, def: IndexDefinition, start: Value, end: Value, env: Env, i: nat)
    requires i <= |KeysFrom(family.Keys, RangeStart(def, start, env))|
    requires var iter := KeysFrom(family.Keys, RangeStart(def, start, env));
             var prefix, endKey := EntryPrefix(def.graphId, def.name, env), RangeStart(def, end, env);
             && (forall k :: k in iter[..i] ==> InRange(prefix, endKey, k))
             && (i < |iter| ==> !(prefix <= iter[i]) || AtMost(endKey, iter[i]))
    ensures KeysFrom(family.Keys, RangeStart(def, start, env))[..i] == RangeKeys(family, def, start, end, env)
  {
    var startKey, endKey := RangeStart(def, start, env), RangeStart(def, end, env);
    var prefix := EntryPrefix(def.graphId, def.name, env);
    assert prefix <= startKey;
    hide Less, KeysFrom, RangeStart, EntryPrefix, KeysBetween, InRange;
    StopsAtRange(family.Keys, prefix, startKey, endKey, i);
  }

  lemma StopsAtRange(keys: set<Bytes>, prefix: Bytes, startKey: Bytes, endKey: Bytes, i: nat)
    requires prefix <= startKey && i <= |KeysFrom(keys, startKey)|
    requires forall k :: k in KeysFrom(keys, startKey)[..i] ==> InRange(prefix, endKey, k)
    requires i < |KeysFrom(keys, startKey)| ==>
               !(prefix <= KeysFrom(keys, startKey)[i]) || AtMost(endKey, KeysFrom(keys, startKey)[i])
    ensures KeysFrom(keys, startKey)[..i] == KeysBetween(keys, prefix, startKey, endKey)
  {
    var iter := KeysFrom(keys, startKey);
    KeysFromExactly(keys, startKey);
    BetweenSorted(keys, prefix, startKey, endKey);
    Take(iter, i);
    hide *;
    forall k | k in keys && AtMost(startKey, k) && InRange(prefix, endKey, k) ensures k in iter[..i] {
      var j := KeyMet(keys, startKey, k);
      if j >= i {
        MetInOrder(keys, startKey, i, j);
        Passed(prefix, startKey, endKey, iter[i], k);
      }
    }
    SortedUnique(iter[..i], KeysBetween(keys, prefix, startKey, endKey));
  }

  lemma Take(s: seq<Bytes>, i: nat)
    requires StrictlySorted(s) && i <= |s|
    ensures StrictlySorted(s[..i])
  {
  }

  lemma Passed(prefix: Bytes, startKey: Bytes, endKey: Bytes, at: Bytes, k: Bytes)
    requires prefix <= startKey && AtMost(startKey, at) && AtMost(at, k) && InRange(prefix, endKey, k)
    ensures prefix <= at && !AtMost(endKey, at)
  {
    PrefixConvex(prefix, startKey, at, k);
    if Less(endKey, at) && at != k {
      LessTransitive(endKey, at, k);
    }
    LessAsymmetric(k, endKey);
  }

  lemma LongKeys(family: IndexFamily, def: IndexDefinition, start: Value, end: Value, env: Env)
    requires FamilyOk(family, env)
    ensures forall k :: k in RangeKeys(family, def, start, end, env) ==> k in family && |k| >= 16
  {
    hide MetaKey, Less, EncodeValues;
  }

  /** The first key that belongs to another node, if any. */
  method FindOther(ks: seq<Bytes>, id: Uuid) returns (found: bool)
    ensures found <==> exists q :: q in ks && |q| >= 16 && EntityId(q) != id
  {
    var i := 0;
    while i < |ks|
      invariant 0 <= i <= |ks|
      invariant forall j :: 0 <= j < i && |ks[j]| >= 16 ==> EntityId(ks[j]) == id
    {
      if |ks[i]| >= 16 && EntityId(ks[i]) != id {
        assert ks[i] in ks;
        return true;
      }
      i := i + 1;
    }
    return false;
  }

  method CollectIds(ks: seq<Bytes>) returns (found: seq<Uuid>)
    requires forall k :: k in ks ==> |k| >= 16
    ensures found == IdsAt(ks)
  {
    found := [];
    var i := 0;
    while i < |ks|
      invariant 0 <= i <= |ks| && found == IdsAt(ks)[..i]
    {
      assert ks[i] in ks;
      found := found + [EntityId(ks[i])];
      i := i + 1;
    }
  }

  /** The key is the graph's metadata key of the definition stored under it. */
  lemma MetaFound(family: IndexFamily, graphId: Uuid, k: Bytes, env: Env)
    requires FamilyOk(family, env) && k in family && MetaPrefix(graphId) <= k
    ensures family[k].Meta? && family[k].def.graphId == graphId && k == MetaKey(graphId, family[k].def.name)
  {
    assert k[16] == MetaPrefix(graphId)[16] == META_MARKER && k[..16] == MetaPrefix(graphId)[..16] == graphId;
    var def := family[k].def;
    assert MetaKey(def.graphId, def.name)[..16] == def.graphId;
  }

  ghost function DefsAt(family: IndexFamily, graphId: Uuid, env: Env): (r: seq<IndexDefinition>)
    requires FamilyOk(family, env)
    ensures var ks := KeysWithPrefix(family.Keys, MetaPrefix(graphId));
            |r| == |ks| && forall i :: 0 <= i < |ks| ==> ks[i] in family && family[ks[i]] == Meta(r[i])
  {
    var ks := KeysWithPrefix(family.Keys, MetaPrefix(graphId));
    forall i | 0 <= i < |ks| ensures ks[i] in family && family[ks[i]].Meta? {
      assert ks[i] in ks;
      MetaFound(family, graphId, ks[i], env);
    }
    seq(|ks|, i requires 0 <= i < |ks| => family[ks[i]].def)
  }

  lemma DefsAtListed(family: IndexFamily, graphId: Uuid, env: Env)
    requires FamilyOk(family, env)
    ensures forall d: IndexDefinition :: d in DefsAt(family, graphId, env) <==> d.graphId == graphId && Listed(family, d)
    ensures forall i, j :: 0 <= i < j < |DefsAt(family, graphId, env)| ==>
              DefsAt(family, graphId, env)[i].name != DefsAt(family, graphId, env)[j].name
  {
    hide SortedKeys, FamilyOk, MetaKey;
    var ks := KeysWithPrefix(family.Keys, MetaPrefix(graphId));
    var defs := DefsAt(family, graphId, env);
    forall i | 0 <= i < |ks| ensures ks[i] == MetaKey(graphId, defs[i].name) && defs[i].graphId == graphId {
      assert ks[i] in ks;
      MetaFound(family, graphId, ks[i], env);
    }
    forall d: IndexDefinition | d.graphId == graphId && Listed(family, d) ensures d in defs {
      MetaShape(graphId, d.name);
      assert MetaKey(graphId, d.name) in ks;
      var j :| 0 <= j < |ks| && ks[j] == MetaKey(graphId, d.name);
      assert defs[j] == d;
    }
    forall a, b | 0 <= a < b < |ks| ensures defs[a].name != defs[b].name {
      SortedKeysDiffer((set k | k in family.Keys && MetaPrefix(graphId) <= k), a, b);
    }
  }

  method CollectDefs(family: IndexFamily, graphId: Uuid, env: Env) returns (defs: seq<IndexDefinition>)
    requires FamilyOk(family, env)
    ensures defs == DefsAt(family, graphId, env)
  {
    hide SortedKeys, FamilyOk, MetaKey;
    var ks := ScanPrefix(family.Keys, MetaPrefix(graphId));
    defs := [];
    var i := 0;
    while i < |ks|
      invariant 0 <= i <= |ks| && defs == DefsAt(family, graphId, env)[..i]
    {
      assert ks[i] in ks;
      MetaFound(family, graphId, ks[i], env);
      defs := defs + [family[ks[i]].def];
      i := i + 1;
    }
  }

  class IndexManager {
    const env: Env
    var family: IndexFamily

    constructor (env: Env)
      requires EnvOk(env)
      ensures Valid() && this.env == env && family == map[]
    {
      this.env := env;
      family := map[];
    }

    ghost predicate Valid()
      reads this
    {
      EnvOk(env) && FamilyOk(family, env)
    }

    method CreateIndex(def: IndexDefinition)
      requires Valid()
      modifies this
      ensures Valid() && family == old(family)[MetaKey(def.graphId, def.name) := Meta(def)]
    {
      FamilyAfterMeta(family, def, env);
      family := family[MetaKey(def.graphId, def.name) := Meta(def)];
    }

    /** Removes the metadata and every entry of the index. */
    method DropIndex(graphId: Uuid, name: string)
      requires Valid()
      modifies this
      ensures Valid() && family == Dropped(old(family), graphId, name, env)
    {
      hide SortedKeys, FamilyOk, EntryPrefix, MetaKey, EnvOk;
      FamilyAfterRemoval(family, {MetaKey(graphId, name)}, env);
      family := family - {MetaKey(graphId, name)};
      var ks := ScanPrefix(family.Keys, EntryPrefix(graphId, name, env));
      var batch := DeleteAll(ks);
      WriteDeletes(family, ks, batch);
      FamilyAfterRemoval(family, (set k | k in ks), env);
      family := Write(family, batch);
    }

    /**
     Adds the node's entry. A unique index refuses it when an entry with the
     same values belongs to another node.
     */
    method IndexNode(def: IndexDefinition, node: Node) returns (r: Result<(), IndexError>)
      requires Valid()
      modifies this
      ensures Valid()
      ensures r.Failure? <==> def.unique && Clashes(old(family), def, node, env)
      ensures r.Failure? ==> family == old(family)
      ensures r.Success? ==> family == old(family)[NodeEntry(def, node, env) := Entry]
    {
      hide SortedKeys, FamilyOk, EncodeValues, IndexedValues, EnvOk;
      var encoded := EncodeProperties(def, node, env);
      if def.unique {
        var ks := ScanPrefix(family.Keys, EntryValuePrefix(def, encoded, env));
        var other := FindOther(ks, node.id);
        if other {
          return Failure(UniqueViolation);
        }
      }
      FamilyAfterEntry(family, def, encoded, node.id, env);
      family := family[EntryKey(def, encoded, node.id, env) := Entry];
      return Success(());
    }

    method UnindexNode(def: IndexDefinition, node: Node)
      requires Valid()
      modifies this
      ensures Valid() && family == old(family) - {NodeEntry(def, node, env)}
    {
      FamilyAfterRemoval(family, {NodeEntry(def, node, env)}, env);
      family := family - {EntryKey(def, EncodeProperties(def, node, env), node.id, env)};
    }

    /** The ids at the end of the keys that extend the encoded values. */
    method Lookup(def: IndexDefinition, values: seq<Value>) returns (found: seq<Uuid>)
      requires Valid()
      ensures var ks := KeysWithPrefix(family.Keys, EntryValuePrefix(def, EncodeValues(values, env.codec), env));
              (forall k :: k in ks ==> |k| >= 16) && found == IdsAt(ks)
    {
      hide SortedKeys, EncodeValues, EnvOk;
      var ks := ScanPrefix(family.Keys, EntryValuePrefix(def, EncodeValues(values, env.codec), env));
      found := CollectIds(ks);
    }

    /** Seeks to the encoded start and stops at the end of the index or at the encoded end. */
    method RangeScan(def: IndexDefinition, start: Value, end: Value) returns (found: seq<Uuid>)
      requires Valid()
      ensures var ks := RangeKeys(family, def, start, end, env);
              (forall k :: k in ks ==> |k| >= 16) && found == IdsAt(ks)
    {
      hide SortedKeys, EncodeValues, EnvOk, FamilyOk, Less;
      var prefix := EntryPrefix(def.graphId, def.name, env);
      var startKey, endKey := RangeStart(def, start, env), RangeStart(def, end, env);
      var iter := KeysFrom(family.Keys, startKey);
      var ks := [];
      var i := 0;
      while i < |iter|
        invariant 0 <= i <= |iter| && ks == iter[..i]
        invariant forall k :: k in ks ==> InRange(prefix, endKey, k)
      {
        if !(prefix <= iter[i]) || AtMost(endKey, iter[i]) {
          break;
        }
        NotAtMost(endKey, iter[i]);
        ks := ks + [iter[i]];
        i := i + 1;
      }
      RangeScanStops(family, def, start, end, env, i);
      LongKeys(family, def, start, end, env);
      found := CollectIds(ks);
    }

    /** Every definition recorded for the graph, by name. */
    method ListIndexes(graphId: Uuid) returns (defs: seq<IndexDefinition>)
      requires Valid()
      ensures defs == DefsAt(family, graphId, env)
    {
      defs := CollectDefs(family, graphId, env);
    }
  }

  ghost function Dropped(family: IndexFamily, graphId: Uuid, name: string, env: Env): IndexFamily {
    map k | k in family && k != MetaKey(graphId, name) && !(EntryPrefix(graphId, name, env) <= k) :: family[k]
  }
}
