# Synaptica, verified

A Dafny model of the core of Synaptica, a property-graph database, and proofs
about it. Everything Synaptica keeps is a set of byte-string keys in an ordered
key-value store, read back by seek and forward scan. The model starts there and
builds the layers on it, up to query plans, the query language and the cluster
protocols.

`dafny verify dfyconfig.toml` checks the whole project.

| part | files | main results |
|---|---|---|
| Ordered store | `Bytes`, `OrderedStore`, `Wrappers` | lexicographic order, seek and prefix scan |
| Versions and snapshots | `VersionedKeys`, `PrefixScans`, `VersionGc`, `MvccStore`, `TransactionModel`, `TransactionRuns`, `ConflictPruning`, `Transactions` | the byte store refines the committed history; snapshot isolation; first committer wins despite pruning, with no condition for recent transactions; scans are exact if and only if versions are orderly; collection is invisible above the watermark, whatever the keys |
| Graph storage | `GraphKeys`, `SecondaryIndex`, `GraphStore`, `StorageEngine` | adjacency and label families are exactly what the node and edge tables imply, after every operation |
| Property index | `Values`, `ValueCodec`, `PropertyIndex`, `IndexScans` | order-preserving, self-delimiting encoding; exact lookup and range scan |
| Index maintenance and writes | `IndexMaintenance`, `IndexRuns`, `UniqueIndex`, `ExecutionEngine`, `WriteLaws` | coherence and uniqueness in every reachable state; cascade and conservation on delete; what SET, DELETE and an expansion do to each record |
| Expressions and operators | `Syntax`, `Expressions`, `ExpressionLaws`, `Plans`, `PlanLaws`, `ScanLaws` | comparison, three-valued logic, exact integers, IN and CASE by their meaning; scan, filter, limit, projection and stable sort row by row |
| Index-scan rewrite | `PatternRows`, `PlanEquivalence`, `IndexRewrite`, `RewriteLaws`, `RewriteMeaning`, `LookupAnswers`, `OptimizerTheorem`, `QueryExecution` | when a filter is rewritten; when a lookup and the equalities it stands for disagree; the optimizer preserves meaning under three-valued logic with errors if and only if that is harmless |
| Query language | `Grammar`, `Printer`, `ParserRoundTrip`, `GrammarLaws`, `Parser`, `Lexer`, `Keywords`, `LexerLaws`, `Export` | parsing inverts a precedence-aware printer; precedence and the depth limit in numbers; progress and termination; what each kind of text lexes to; export and import round trip |
| Cluster | `TwoPhaseModel`, `TwoPhaseSafety`, `TwoPhaseOutcomes`, `TwoPhaseCommit`, `RaftLog` | atomicity, recovery and delivery of two-phase commit; the Raft log store refines an indexed log |
| Join | `HashJoin`, `JoinLaws` | the hash join equals the nested loop: the pairs of rows that agree by name |

## How it is modelled

Objects that the program updates in place are classes with the same fields:
`MvccStore`, `TimestampOracle`, `Transaction`, `TransactionManager`,
`StorageEngine`, `IndexManager`, `ExecutionEngine`, `Parser`, `Lexer`,
`DecisionLog`, `TwoPhaseCoordinator`, `RocksLogStore`. A column family is a
field of type `map` from keys to values, its iterators are the sorted keys, and
a write batch takes effect at once. Each method is proved against a function of
the old state, and the promises of the program are proved as lemmas about those
functions and as invariants the methods keep. Each method call is one step.

Ghost fields record what the program does not keep: every commit and the highest
pruning watermark in the transaction manager, and everything logged and sent in
the two-phase coordinator.

Parameters stand for code that is not looked into: the hash of an index name
(taken as injective on the names in use), the serializer of composite values
(only the length of its output is assumed to fit its 32-bit length field), floating-point arithmetic and the conversion of an integer to a
float, built-in functions, the parsing of a float literal, the text of a UUID,
stable sorting, the iteration order of a hash set of property keys, the
rendering of a value in a join key, and the answers of two-phase participants.

## What holds only under a condition, and what shows it

- Versioned reads and scans need keys that do not extend one another, as the
  32-byte node and edge keys do not. `GetAt` states exactly when a read is cut
  short and `ScanExactIff` exactly when a scan lists the live keys in order;
  `ExtendingKeyHidesVersion` and `ExtendingKeyRevives` give stores where they do
  not. Collection stays safe on any keys but can leave garbage:
  `ExtendingKeyKeepsGarbage`. An empty stored value is a deletion:
  `OwnReadSurvivesCommit`.
- A conflict can be lost when the table is pruned above an active snapshot:
  `PrunedConflictLost`. The guarantee is exact at or above the watermark, which
  commits themselves keep more than 10000 timestamps behind: `OnlyOldIsPruned`,
  `RecentConflictsExact`.
- A `Snapshot` is taken at a timestamp that is not issued yet, so the next commit
  shows in it, although its documentation promises consistent reads:
  `CommitSeenFrom`.
- An index created with a label is backfilled only with the nodes of the label,
  but its definition keeps no label, so later writes index every node and
  lookups are taken to cover every node: `CreationCoherent` says exactly when
  that is right.
- A unique index keeps one node per tuple in every run, `UniqueInEveryRun`, but
  it is not complete: the error of a refused entry is ignored, and the refused
  node stays out after its rival is gone, `RefusedNodeIsLost`. Coherence is
  about non-unique indexes.
- The rewrite to an index scan needs a named variable, a predicate that reads
  only plain properties of it, literals that have values, and the chosen index
  to be coherent: `AnonymousNeedsColumn`, `BareNameNeedsColumn`. Then it
  preserves meaning if and only if no node is wrongly found or missed by the
  lookup where that shows: `FilterBecomesIndexScan`. A lookup is wrong about a
  node exactly when a stored zero meets the other zero, a stored NaN meets a
  zero or a positive subnormal, or nulls alone are looked up:
  `LookupJudgedExactly`, `NaNTakenFor`, `NegativeZeroIsMissed`, `NaNIsFound`,
  `NullIsNotSearched`.
- Labels are told apart up to 65535 bytes: `LabelsCollideIff`. Within that bound
  every scan is exact; beyond it scans are exact up to that confusion.
- `abort` is accepted while a commit is being delivered, so a failed delivery
  followed by an abort splits a transaction: `SplitIffFailedThenAborted`, `SplitHappens`.
- A purge at the greatest index leaves an entry behind, because its end key
  saturates: `PurgeRefinesIff`.
- The export of a property map comes back for non-empty maps without quotes in
  strings and without the least integer: `QuotedIffNoQuotes`,
  `LeastIntegerFails`. Of keys that are words, its own keys come back if and only
  if each is read as itself, which a keyword is in lower case only:
  `ExportRoundTrip`, `KeywordKeys`; keys of nested maps may not be keywords.
- Rows sort as their keys do where each key has values of one kind; across types
  the comparison of values is no order: `SortMeaning`, `NoOrderAcrossTypes`.
- Equality of join keys is equality of renderings. It is equality of values where
  the rendering tells values apart, which the debug rendering does not for the
  NaN patterns.

## Model

| member | source | states |
|---|---|---|
| Bytes.PrefixConvex | crates/synaptica-storage/src/mvcc.rs:188-195 | Whatever sorts between two keys that extend a prefix extends it too, so a scan may stop at the first key outside the prefix. |
| Bytes.U64Order | crates/synaptica-storage/src/mvcc.rs:90-96 | Big-endian integers sort as byte strings the way they compare as numbers. |
| OrderedStore.ScanPrefix | crates/synaptica-storage/src/index.rs:288-293 | The seek-and-stop loop of every prefix scan returns exactly the keys that extend the prefix, in order. |
| OrderedStore.WriteDeletes | crates/synaptica-storage/src/engine.rs:319-343 | A write batch of deletions removes exactly the listed keys. |
| VersionedKeys.VersionedKeyRoundTrip | crates/synaptica-storage/src/mvcc.rs:90-115 | Decoding a versioned key gives back its key and its timestamp. |
| VersionedKeys.VersionedKeyOnto | crates/synaptica-storage/src/mvcc.rs:99-115 | Every string of eight bytes or more is the versioned key of exactly one key and timestamp. |
| VersionedKeys.VersionedKeyOrder | crates/synaptica-storage/src/mvcc.rs:86-96 | Of two versions of a key the newer sorts first. |
| VersionedKeys.VersionsContiguous | crates/synaptica-storage/src/mvcc.rs:188-195 | With prefix-free keys no foreign key sorts between two versions of one key. |
| VersionedKeys.KeysDecideOrder | crates/synaptica-storage/src/mvcc.rs:210-256 | With prefix-free keys, versions of different keys sort as the keys do. |
| VersionedKeys.NewestIsGreatest | crates/synaptica-storage/src/mvcc.rs:170-207 | The visible version is the one with the greatest timestamp at or below the snapshot. |
| PrefixScans.ScanExactIff | crates/synaptica-storage/src/mvcc.rs:210-256 | A prefix scan lists every live key once, in key order, with its value, if and only if the stored versions are orderly: no version it reports is an old one, no live version stands behind a key outside the prefix, and the reported ones stand in key order. |
| PrefixScans.PrefixFreeOrderly | crates/synaptica-storage/src/mvcc.rs:225-256 | With prefix-free keys they always are. |
| PrefixScans.ScanStepKnowsRepeats | crates/synaptica-storage/src/mvcc.rs:239-252 | The last-key variable tells whether the last visible version before this one is of the same key. |
| PrefixScans.ExtendingKeyRevives | crates/synaptica-storage/src/mvcc.rs:239-252 | Without prefix-free keys a scan can list a deleted key with an older value: a concrete store. |
| VersionGc.GcInvisible | crates/synaptica-storage/src/mvcc.rs:301-351 | Removing garbage at a watermark, all of it or some, changes no visible value and no live scan at or above the watermark, for any key, prefix and timestamp. |
| VersionGc.GcIdempotent | crates/synaptica-storage/src/mvcc.rs:301-351 | The newest version at or below the watermark survives for every key, and of the rest nothing is garbage any more. |
| VersionGc.GcReadExactly | crates/synaptica-storage/src/mvcc.rs:301-351 | For a reader at any timestamp: if the version it saw is garbage it sees nothing after the collection, and otherwise what it saw before. |
| VersionGc.GcVisibleBelowWatermark | crates/synaptica-storage/src/mvcc.rs:320-338 | Below the watermark collection can be seen: a concrete reader loses its version. |
| VersionGc.TakenIsGarbage | crates/synaptica-storage/src/mvcc.rs:325-340 | Whatever the keys, the collector takes nothing but garbage. |
| VersionGc.PrefixFreeTaken | crates/synaptica-storage/src/mvcc.rs:325-340 | With prefix-free keys it takes all of it. |
| VersionGc.ExtendingKeyKeepsGarbage | crates/synaptica-storage/src/mvcc.rs:325-340 | Without them garbage can stay: a concrete store. |
| MvccStores.PrefixFreeNeverInterrupted | crates/synaptica-storage/src/mvcc.rs:191-195 | With prefix-free keys a read is never cut short by a foreign key. |
| MvccStores.ExtendingKeyHidesVersion | crates/synaptica-storage/src/mvcc.rs:191-195 | Without prefix-free keys it can be: a committed value of `a` is hidden by a version of `ab`. |
| MvccStores.ReadVersion | crates/synaptica-storage/src/mvcc.rs:179-207 | The reading loop returns the visible value unless a foreign key interrupts the walk, and then nothing. |
| MvccStores.ScanVersions | crates/synaptica-storage/src/mvcc.rs:218-256 | The scanning loop lists, in store order, the versions it reaches that are visible, not deletions and do not repeat the last visible key; for any keys. |
| MvccStores.FindGarbage | crates/synaptica-storage/src/mvcc.rs:310-345 | The collecting loop marks, each once, the versions it reaches that stand in one run of their key behind another one at or below the watermark; for any keys. |
| MvccStores.MvccStore.PutAt | crates/synaptica-storage/src/mvcc.rs:148-163 | Installs one version and touches nothing else; a missing column family is an error. |
| MvccStores.MvccStore.DeleteAt | crates/synaptica-storage/src/mvcc.rs:165-168 | Installs a tombstone version. |
| MvccStores.MvccStore.BatchWriteAt | crates/synaptica-storage/src/mvcc.rs:259-277 | All writes take effect at the timestamp, or, when a column family is missing, none does. |
| MvccStores.MvccStore.GetAt | crates/synaptica-storage/src/mvcc.rs:170-207 | Returns the newest version at or before the snapshot, a tombstone reading as absent, exactly when no foreign key interrupts; always so with prefix-free keys. |
| MvccStores.MvccStore.PrefixScanAt | crates/synaptica-storage/src/mvcc.rs:210-256 | Returns that list; it is the live scan if and only if the versions are orderly, and always with prefix-free keys. |
| MvccStores.MvccStore.GcBefore | crates/synaptica-storage/src/mvcc.rs:301-351 | Removes exactly those versions, all of them garbage, and counts them; with prefix-free keys, exactly the garbage. |
| TransactionModel.LastWrite | crates/synaptica-tx/src/transaction.rs:67-78 | There is a buffered value for a key if and only if the key is in the write set. |
| TransactionModel.HistoryReadIsNewest | crates/synaptica-storage/src/mvcc.rs:170-207 | A snapshot reads the last write of the committed transaction with the greatest commit timestamp at or below it that wrote the key, or nothing. |
| TransactionModel.LaterCommitsInvisible | crates/synaptica-tx/src/mvcc.rs:29-34 | Commits after a snapshot do not change what it reads. |
| TransactionModel.ReplayVisible | crates/synaptica-tx/src/mvcc.rs:66-80 | The bytes the commits leave in the store read, through versioned keys, as the committed history does: the byte-level store refines the abstract one. |
| TransactionRuns.RunKeepsInv | crates/synaptica-tx/src/mvcc.rs:29-116 | The manager invariant (increasing history, exact conflict table above the watermark, first committer wins) holds in every reachable state. |
| TransactionRuns.ConflictExact | crates/synaptica-tx/src/mvcc.rs:42-64 | The pruned conflict table reports a conflict exactly for the commits that were not pruned. |
| TransactionRuns.ConflictExactAboveWatermark | crates/synaptica-tx/src/mvcc.rs:42-64 | For a snapshot at or above the highest pruning watermark it reports exactly the later commits that wrote a common key. |
| TransactionRuns.WriteConflictExact | crates/synaptica-tx/src/mvcc.rs:37-100 | In every run, an active transaction with a snapshot at or above the watermark gets WriteConflict if and only if a transaction that committed after its snapshot wrote a common key. |
| TransactionRuns.OverlappingCommitsDisjoint | crates/synaptica-tx/src/mvcc.rs:42-89 | Overlapping committed transactions have disjoint write sets. |
| TransactionRuns.PrunedConflictLost | crates/synaptica-tx/src/mvcc.rs:112-116 | A reachable state in which pruning above a snapshot loses a conflict and lets both writers commit: the watermark condition is needed. |
| ConflictPruning.OnlyOldIsPruned | crates/synaptica-tx/src/mvcc.rs:84-89 | In every run in which no caller prunes, nothing was pruned, or all that was lies more than 10000 timestamps behind the counter. |
| ConflictPruning.RecentConflictsExact | crates/synaptica-tx/src/mvcc.rs:37-89 | In such a run a transaction whose snapshot is at most 10000 timestamps behind the counter, so every one while no more were issued, gets WriteConflict if and only if a transaction that committed after its snapshot wrote a common key; no watermark is assumed. |
| ConflictPruning.TableBounded | crates/synaptica-tx/src/mvcc.rs:84-89 | In every run the conflict table holds at most 10000 commits. |
| ConflictPruning.SmallTableKept | crates/synaptica-tx/src/mvcc.rs:84-89 | A commit adds its entry and forgets none while the table holds fewer than 10000. |
| ConflictPruning.CommitFails | crates/synaptica-tx/src/mvcc.rs:37-100 | Which error a commit fails with, exactly; a failed one changes nothing but, when the batch is refused, the counter, and a successful one adds one record to the history. |
| ConflictPruning.EndedIsOver | crates/synaptica-tx/src/transaction.rs:84-107 | A transaction that committed or was rolled back stays as it is under every call, and each call on it fails. |
| ConflictPruning.RollbackEnds | crates/synaptica-tx/src/mvcc.rs:103-109 | After a rollback the transaction is rolled back whatever is called, and the manager is untouched by it. |
| TransactionRuns.ReadsAreStable | crates/synaptica-tx/src/transaction.rs:67-81 | Whatever the other transactions do, in any order and number, a transaction keeps reading the same value of every key. |
| TransactionRuns.ReadsOwnWrite | crates/synaptica-tx/src/transaction.rs:67-107 | A transaction reads its own last write to a key, whatever happened in between. |
| TransactionRuns.CommitInstalls | crates/synaptica-tx/src/mvcc.rs:66-100 | A commit installs exactly the last buffered write of each key: the next transaction reads it, and every other key as before. |
| TransactionRuns.VisibleToLater | crates/synaptica-tx/src/mvcc.rs:66-100 | Whatever happens after a commit, a transaction begun later reads the last buffered write of every key it wrote, unless a transaction that committed in between wrote the key. |
| TransactionRuns.OwnReadSurvivesCommit | crates/synaptica-storage/src/mvcc.rs:123-125 | What a writer reads of its own write equals what the next transaction reads if and only if it did not put the empty string, which the store takes for a deletion. |
| TransactionRuns.CommitSeenFrom | crates/synaptica-tx/src/mvcc.rs:119-125 | A commit shows from the counter value at its commit on: never in an earlier transaction snapshot, but in a `Snapshot`, which is taken at the counter itself. |
| Transactions.CheckConflict | crates/synaptica-tx/src/mvcc.rs:42-64 | The nested loops answer whether a newer entry of the table shares a key with the write set. |
| Transactions.TimestampOracle.Next | crates/synaptica-storage/src/mvcc.rs:74-76 | Timestamps are issued once each, in increasing order. |
| Transactions.Transaction.Get | crates/synaptica-tx/src/transaction.rs:67-81 | Over the byte-level store the reverse scan of the buffer and the versioned read give the abstract read of the committed history. |
| Transactions.Transaction.Put | crates/synaptica-tx/src/transaction.rs:84-94 | Buffers the write in an active transaction and fails otherwise, leaving all else alone. |
| Transactions.Transaction.Delete | crates/synaptica-tx/src/transaction.rs:97-107 | Buffers a deletion in an active transaction and fails otherwise. |
| Transactions.TransactionManager.Begin | crates/synaptica-tx/src/mvcc.rs:29-34 | Issues an id and a snapshot just below it; the store still holds exactly what the committed transactions wrote. |
| Transactions.TransactionManager.Commit | crates/synaptica-tx/src/mvcc.rs:37-100 | Does what the commit step of the state machine does, on the byte-level store, and keeps the store equal to the replayed history. |
| Transactions.TransactionManager.Rollback | crates/synaptica-tx/src/mvcc.rs:103-109 | Ends an active transaction without writing anything. |
| Transactions.TransactionManager.GcCommittedWrites | crates/synaptica-tx/src/mvcc.rs:112-116 | Drops the conflict entries at or below the watermark and nothing else. |
| Values.Utf8Injective | crates/synaptica-storage/src/index.rs:77-90 | UTF-8 tells strings apart. |
| Values.Utf8CharDelimits | crates/synaptica-storage/src/index.rs:77-90 | No character's UTF-8 bytes can be mistaken for the start of another one's. |
| ValueCodec.IntegerOrder | crates/synaptica-storage/src/index.rs:61-66 | Flipping the sign bit of a big-endian 64-bit integer makes byte order the signed order. |
| ValueCodec.FloatImageOrder | crates/synaptica-storage/src/index.rs:67-76 | The float image orders bit patterns by sign and magnitude, other than NaN and negative zero. |
| ValueCodec.ClosedOrder | crates/synaptica-storage/src/index.rs:77-90 | Escaped, terminated strings sort as the strings do, whatever follows them. |
| ValueCodec.ClosedDelimits | crates/synaptica-storage/src/index.rs:77-90 | The terminator cannot be mistaken for content: an escaped string ends in one place only. |
| ValueCodec.ValueDelimits | crates/synaptica-storage/src/index.rs:54-106 | No value's encoding can be mistaken for part of another one, whatever follows. |
| ValueCodec.ScalarInjective | crates/synaptica-storage/src/index.rs:54-106 | Equal encodings of scalars other than NaN mean equal values. |
| ValueCodec.ValueOrder | crates/synaptica-storage/src/index.rs:54-106 | Of two different ordinary scalars the byte order of the encodings is type first, then value, whatever follows. |
| ValueCodec.TupleDelimits | crates/synaptica-storage/src/index.rs:196-202 | Of equal-length tuples no encoding is a proper prefix of another one. |
| ValueCodec.TupleOrder | crates/synaptica-storage/src/index.rs:185-202 | For equal-length tuples of ordinary scalars, byte order of the encodings equals tuple order. |
| ValueCodec.NegativeZeroApart | crates/synaptica-storage/src/index.rs:67-76 | Negative zero equals zero but is encoded apart from it: the exception is needed. |
| GraphKeys.LabelDelimits | crates/synaptica-storage/src/encoding.rs:18-23 | The length prefix delimits a label inside a key. |
| GraphKeys.LabelsCollideIff | crates/synaptica-storage/src/encoding.rs:18-23 | Two labels share their keys if and only if they agree on the 65535 bytes that are kept. |
| GraphKeys.ShortLabelsDistinct | crates/synaptica-storage/src/encoding.rs:18-23 | Labels of at most 65535 bytes are told apart. |
| GraphKeys.AdjacencyStarts | crates/synaptica-storage/src/encoding.rs:95-157 | An adjacency key extends an endpoint's prefix exactly when it belongs to that graph and endpoint. |
| GraphKeys.AdjacencyLabelStarts | crates/synaptica-storage/src/encoding.rs:133-157 | It extends the labelled prefix exactly when its label cannot be told from the wanted one. |
| GraphKeys.LabelStarts | crates/synaptica-storage/src/encoding.rs:161-186 | A label key extends a label's prefix exactly when it is of that graph and label. |
| SecondaryIndex.IndexDetermined | crates/synaptica-storage/src/engine.rs:611-667 | The tables determine every secondary family: two families that satisfy the invariant are equal. |
| SecondaryIndex.IndexPut | crates/synaptica-storage/src/engine.rs:425-456 | Replacing a record keeps a secondary family exact when the old keys go and the new ones come. |
| SecondaryIndex.IndexRemove | crates/synaptica-storage/src/engine.rs:474-509 | Removing a record with its keys keeps the family exact. |
| SecondaryIndex.IndexDropGraph | crates/synaptica-storage/src/engine.rs:312-345 | Dropping all keys under a graph's id from table and family keeps the family exact. |
| GraphStore.TablesDetermineFamilies | crates/synaptica-storage/src/engine.rs:611-667 | Node and edge tables determine the adjacency and label families. |
| GraphStore.ScanListsEdges | crates/synaptica-storage/src/engine.rs:719-783 | An adjacency scan lists exactly the edges whose keys match, each once. |
| GraphStore.WithLabelExactly | crates/synaptica-storage/src/engine.rs:531-556 | The nodes with a label: exactly those of the list that carry it, in its order. |
| GraphStore.NodesOfExactly | crates/synaptica-storage/src/engine.rs:512-528 | Scanning a graph meets exactly its nodes, each once, in key order. |
| StorageEngines.StorageEngine.PutNode | crates/synaptica-storage/src/engine.rs:425-456 | Stores the node; label entries stay exactly what the table implies. |
| StorageEngines.StorageEngine.GetNode | crates/synaptica-storage/src/engine.rs:459-472 | Finds a node exactly when it is stored. |
| StorageEngines.StorageEngine.DeleteNode | crates/synaptica-storage/src/engine.rs:474-509 | Removes exactly the node and every edge at it, or fails and changes nothing; all families stay exact. |
| StorageEngines.StorageEngine.ScanNodes | crates/synaptica-storage/src/engine.rs:512-528 | Lists the graph's nodes in key order. |
| StorageEngines.StorageEngine.ScanNodesByLabel | crates/synaptica-storage/src/engine.rs:531-556 | Never meets a missing node, and lists exactly the graph's nodes with the label in key order. |
| StorageEngines.StorageEngine.PutEdge | crates/synaptica-storage/src/engine.rs:611-667 | Stores the edge; when it replaces one, the old adjacency and label keys go. |
| StorageEngines.StorageEngine.GetEdge | crates/synaptica-storage/src/engine.rs:670-683 | Finds an edge exactly when it is stored. |
| StorageEngines.StorageEngine.DeleteEdge | crates/synaptica-storage/src/engine.rs:685-716 | Removes exactly the edge, or fails and changes nothing; all families stay exact. |
| StorageEngines.StorageEngine.GetOutgoingEdges | crates/synaptica-storage/src/engine.rs:719-751 | Never meets a missing edge, and lists exactly the matching edges that leave the node, each once. |
| StorageEngines.StorageEngine.GetIncomingEdges | crates/synaptica-storage/src/engine.rs:753-783 | Likewise for the edges that enter it. |
| StorageEngines.StorageEngine.DeleteGraph | crates/synaptica-storage/src/engine.rs:312-345 | Everything under the graph's id goes from every family; other graphs keep everything. |
| StorageEngines.BothEndsAreIncident | crates/synaptica-storage/src/engine.rs:485-497 | Outgoing and incoming edges together are the edges at the node; ids tell them apart, self-loops included. |
| StorageEngines.LabelScanExact | crates/synaptica-storage/src/engine.rs:531-556 | A label scan meets exactly the graph's nodes with the label, in the order of the node table. |
| PropertyIndex.KeyLayout | crates/synaptica-storage/src/index.rs:137-172 | A metadata key is the graph, a zero byte and the name; an entry is the graph, a one byte, the hash of the name, the encoded values and the id. |
| PropertyIndex.PrefixesApart | crates/synaptica-storage/src/index.rs:137-183 | Entries of indexes of other graphs, or with other name hashes, never meet. |
| PropertyIndex.IndexManager.CreateIndex | crates/synaptica-storage/src/index.rs:207-213 | Records the definition and touches no entry. |
| PropertyIndex.IndexManager.DropIndex | crates/synaptica-storage/src/index.rs:216-238 | Removes the definition and every entry under the index's prefix, nothing else. |
| PropertyIndex.IndexManager.IndexNode | crates/synaptica-storage/src/index.rs:241-273 | Adds the node's entry; fails, changing nothing, exactly when a unique index holds an entry with the same values of another node. |
| PropertyIndex.IndexManager.UnindexNode | crates/synaptica-storage/src/index.rs:276-282 | Removes exactly the node's entry. |
| PropertyIndex.IndexManager.Lookup | crates/synaptica-storage/src/index.rs:285-303 | Returns the ids at the end of the entries that extend the encoded values, in order. |
| PropertyIndex.IndexManager.RangeScan | crates/synaptica-storage/src/index.rs:306-339 | Returns the ids of the entries from the encoded start on and below the encoded end, in order. |
| PropertyIndex.IndexManager.ListIndexes | crates/synaptica-storage/src/index.rs:342-356 | Lists every definition recorded for the graph. |
| PropertyIndex.DefsAtListed | crates/synaptica-storage/src/index.rs:342-356 | The listed definitions are exactly the recorded ones, each once. |
| IndexScans.LookupExact | crates/synaptica-storage/src/index.rs:285-303 | On a coherent index a lookup returns exactly the ids of the nodes whose indexed properties encode to the given tuple, in node-table order. |
| IndexScans.EntryMatches | crates/synaptica-storage/src/index.rs:285-303 | An entry extends the encoded tuple if and only if its node has exactly those values. |
| IndexScans.EntryBelow | crates/synaptica-storage/src/index.rs:306-339 | An entry sorts below an encoded bound if and only if its value is below the bound. |
| IndexScans.RangeExact | crates/synaptica-storage/src/index.rs:306-339 | On a coherent single-property index a range scan returns exactly the nodes with start <= value < end, by value and then by id. |
| IndexMaintenance.UnindexKeeps | crates/synaptica-exec/src/engine.rs:1895-1908 | Removing a node with its entries keeps every coherent index coherent. |
| IndexMaintenance.IndexKeeps | crates/synaptica-exec/src/engine.rs:1880-1893 | Adding a node with its entries keeps every coherent index coherent. |
| IndexMaintenance.RewriteKeeps | crates/synaptica-exec/src/engine.rs:1251-1262 | Unindexing the old version and indexing the new one keeps every coherent index coherent. |
| IndexMaintenance.CreatedMaintained | crates/synaptica-exec/src/engine.rs:1460-1514 | A new non-unique index under a fresh name is coherent if and only if its backfill saw every node with an indexed property. |
| IndexMaintenance.CreatedKeepsOthers | crates/synaptica-exec/src/engine.rs:1460-1514 | Creating an index leaves the others coherent. |
| IndexMaintenance.DroppedKeepsOthers | crates/synaptica-storage/src/index.rs:216-238 | Dropping an index leaves the others coherent. |
| IndexMaintenance.DropGraphKeepsOthers | crates/synaptica-storage/src/engine.rs:312-345 | Dropping a graph leaves the indexes of other graphs coherent. |
| IndexRuns.StepKeepsInv | crates/synaptica-exec/src/engine.rs:950-974 | Every step keeps the family well formed: every entry belongs to a recorded index. |
| IndexRuns.CreationCoherent | crates/synaptica-exec/src/engine.rs:1460-1514 | Creation gives a coherent index if and only if the label its backfill was limited to, if any, is on every node with an indexed property: the definition keeps no label. |
| IndexRuns.CoherentInEveryRun | crates/synaptica-exec/src/engine.rs:1880-1908 | An index created under a fresh name over all nodes is coherent after every later run of node writes, deletions, index and graph operations that does not touch it. |
| UniqueIndex.ClashMeaning | crates/synaptica-storage/src/index.rs:245-268 | The uniqueness check finds another id exactly when another node has an entry with the same encoded values, no value tuple being taken for the beginning of another. |
| UniqueIndex.UniqueAdmits | crates/synaptica-exec/src/engine.rs:1880-1893 | Writing a covered node: a unique index takes its entry if and only if no other node holds the tuple, whatever version of the node was there before, and what the other nodes hold does not change. |
| UniqueIndex.StepKeepsGuarded | crates/synaptica-storage/src/index.rs:240-275 | Every step that does not touch a unique index leaves it recorded, apart from other names, and with one node per tuple. |
| UniqueIndex.UniqueInEveryRun | crates/synaptica-storage/src/index.rs:240-275 | After a unique index was created under a fresh name, with any backfill, every later run that does not touch it leaves a lookup of a full tuple with at most one result. |
| UniqueIndex.RefusedNodeIsLost | crates/synaptica-exec/src/engine.rs:1885-1891 | The converse fails: of two nodes with one tuple the second is refused without an error, and once the first is removed no entry holds the tuple although the second node is stored. |
| ExecutionEngines.ExecutionEngine.IndexNodeOnWrite | crates/synaptica-exec/src/engine.rs:1880-1893 | Every index of the graph that covers the node takes its entry; errors are ignored. |
| ExecutionEngines.ExecutionEngine.UnindexNodeOnDelete | crates/synaptica-exec/src/engine.rs:1895-1908 | The node's entries leave every index that covers it. |
| ExecutionEngines.ExecutionEngine.ExecCreateNode | crates/synaptica-exec/src/engine.rs:950-974 | Succeeds exactly when the properties evaluate; then stores the node, counts it and keeps coherent indexes coherent; otherwise changes nothing. |
| ExecutionEngines.ExecutionEngine.RewriteNode | crates/synaptica-exec/src/engine.rs:1251-1262 | Replaces a stored node and keeps coherent indexes coherent. |
| ExecutionEngines.ExecutionEngine.ExecSetProperty | crates/synaptica-exec/src/engine.rs:1231-1326 | Succeeds exactly when every evaluation does and every named node and edge exists; then the tables differ by exactly the assignments, which are counted, and coherent indexes stay coherent. |
| ExecutionEngines.SetAllExactly | crates/synaptica-exec/src/engine.rs:1240-1320 | After a list of assignments each named node or edge has the last value assigned to it and everything else is unchanged. |
| ExecutionEngines.ExecutionEngine.CountIncidentEdges | crates/synaptica-exec/src/engine.rs:1212-1227 | Counts the edges deleting the node will delete: self-loops and parallel edges once each. |
| ExecutionEngines.IncidentCount | crates/synaptica-exec/src/engine.rs:1212-1227 | The number of distinct ids at both ends is exactly how far the edge table shrinks. |
| ExecutionEngines.ExecutionEngine.ExecDeleteNodes | crates/synaptica-exec/src/engine.rs:1138-1210 | Succeeds exactly when all named nodes and edges are stored; then removes exactly the named edges, the named nodes and every edge at those, and the reported counts are how far the two tables shrank. |
| ExecutionEngines.ExecutionEngine.ExecCreateIndex | crates/synaptica-exec/src/engine.rs:1460-1514 | Records the index and gives it the entries of the nodes its backfill goes through. |
| ExecutionEngines.ExecutionEngine.ExecDropIndex | crates/synaptica-exec/src/engine.rs:1516-1526 | Removes the index with its entries. |
| ExecutionEngines.ExecutionEngine.ExpandEdges | crates/synaptica-exec/src/engine.rs:426-457 | Follows exactly the wanted edges at a node, each once, a self-loop not from both ends. |
| ExecutionEngines.ExecutionEngine.ExpandNode | crates/synaptica-exec/src/engine.rs:426-492 | Returns exactly the pairs of a stored edge that leaves the node, enters it, or does either, of the wanted label, and the stored node at its far end with one of the wanted labels, each edge once; missing nodes are skipped. |
| WriteLaws.SetNodeMeaning | crates/synaptica-exec/src/engine.rs:1231-1326 | SET: a node some row names has the property with the value of the expression on the last such row and is otherwise as it was; a node no row names is untouched. |
| WriteLaws.SetEdgeMeaning | crates/synaptica-exec/src/engine.rs:1231-1326 | Likewise for edges. |
| WriteLaws.WriteCountMeaning | crates/synaptica-exec/src/engine.rs:1231-1326 | The reported number is how many of the assignments name a node or an edge. |
| WriteLaws.DeleteMeaning | crates/synaptica-exec/src/engine.rs:1138-1210 | DELETE takes what some row holds in one of the named columns, or anywhere where none is named. |
| WriteLaws.DeletedMeaning | crates/synaptica-exec/src/engine.rs:1138-1210 | Afterwards a node is stored if and only if it was and no deleted value names it, an edge if and only if it was, none names it and neither of its ends is deleted. |
| ExpressionLaws.FloatsAreNumbers | crates/synaptica-exec/src/expression.rs:259-287 | Sign and magnitude order the bit patterns other than NaN as the numbers they stand for, and equality is equality of numbers. |
| ExpressionLaws.Utf8Order | crates/synaptica-exec/src/expression.rs:259-287 | The UTF-8 bytes of strings sort as the strings do, character by character. |
| ExpressionLaws.ComparisonMeaning | crates/synaptica-exec/src/expression.rs:259-287 | `<` is true exactly when the left value comes before the right one, as integers, as floats or as strings, `>` exactly when the right one does, and `<=` and `>=` are their opposites; a null or a NaN gives null, and unrelated types are an error. |
| ExpressionLaws.OrderIsTotal | crates/synaptica-exec/src/expression.rs:259-287 | Of two ordered values at most one comes first, and of one type neither does exactly when they are equal. |
| ExpressionLaws.LogicMeaning | crates/synaptica-exec/src/expression.rs:229-242 | With false below unknown below true, AND is the least and OR the greatest of its operands; XOR is unknown unless both are known. |
| ExpressionLaws.ShortCircuit | crates/synaptica-exec/src/expression.rs:40-76 | A false left side decides AND and a true one OR, whatever the right side does; otherwise the first error is the result. |
| ExpressionLaws.OddOperandsAreUnknown | crates/synaptica-exec/src/expression.rs:229-242 | An operand of AND, OR or XOR that is no truth value counts as unknown. |
| ExpressionLaws.UnaryMeaning | crates/synaptica-exec/src/expression.rs:313-344 | NOT turns true and false round and keeps unknown; minus gives the opposite number, or fails on the least integer; other operands are type errors and null stays null. |
| ExpressionLaws.NullTestMeaning | crates/synaptica-exec/src/expression.rs:81-88 | IS NULL and IS NOT NULL tell null from everything else. |
| ExpressionLaws.ScalarEquality | crates/synaptica-exec/src/expression.rs:192-195 | Scalars are equal exactly when they are of one type and the same value, floats by the numbers they stand for. |
| ExpressionLaws.EqualityMeaning | crates/synaptica-exec/src/expression.rs:192-195 | `=` and `<>` never fail on values and are opposites. |
| ExpressionLaws.IntegerMeaning | crates/synaptica-exec/src/expression.rs:199-201 | Integers add, subtract and multiply exactly, or fail where the result is no 64-bit integer. |
| ExpressionLaws.DivisionMeaning | crates/synaptica-exec/src/expression.rs:202-228 | Integer division truncates toward zero and the remainder has the sign of the dividend; a zero divisor, and the least integer by minus one, are errors of both. |
| ExpressionLaws.FloatMeaning | crates/synaptica-exec/src/expression.rs:289-311 | With a float operand the float operation is applied to the operands in order, an integer one converted; a zero divisor fails, and operands that are no numbers are type errors. |
| ExpressionLaws.ConcatMeaning | crates/synaptica-exec/src/expression.rs:243-256 | Strings and lists are joined, left then right; other operands are type errors. |
| ExpressionLaws.InMeaning | crates/synaptica-exec/src/expression.rs:89-96 | IN is true exactly when some item equals the operand; anything but a list is an error. |
| ExpressionLaws.CaseMeaning | crates/synaptica-exec/src/expression.rs:132-158 | The first arm whose condition equals the subject, or is true without one, gives the result, and a failing condition before it the error; without such an arm ELSE does, or null. |
| ExpressionLaws.FirstArm | crates/synaptica-exec/src/expression.rs:132-158 | Every CASE is of one of these kinds. |
| ExpressionLaws.NameMeaning | crates/synaptica-exec/src/expression.rs:11-14 | A name has the value of the first column that bears it and is an error where none does. |
| ExpressionLaws.PropertyMeaning | crates/synaptica-exec/src/expression.rs:27-38 | A property of a map, a node or an edge is its entry or null; anything else has only null properties. |
| ExpressionLaws.ItemsMeaning | crates/synaptica-exec/src/expression.rs:118-124 | A list evaluates item by item, in order, or fails with the first error. |
| ExpressionLaws.EntriesMeaning | crates/synaptica-exec/src/expression.rs:125-131 | A map has the keys of its entries, each with the value of the last entry that bears it. |
| ScanLaws.ScanMeaning | crates/synaptica-exec/src/engine.rs:322-339 | A scan lists, in key order, exactly the stored nodes of the graph that have every label; one label alone is told by its key bytes. |
| ScanLaws.ShortLabelScan | crates/synaptica-exec/src/engine.rs:322-339 | With labels of up to 65535 bytes a scan lists exactly the nodes that have every label. |
| ScanLaws.RowMeaning | crates/synaptica-exec/src/engine.rs:340-391 | The row of a scanned node shows its id and its labels in the internal columns, the node under the variable, and each property under its name and its dotted name, null where the node lacks it. |
| PatternRows.EvaluateAgrees | crates/synaptica-exec/src/expression.rs:8-162 | An expression that reads only plain properties of the variable evaluates alike on rows that agree on the variable. |
| PatternRows.AccessIsProperty | crates/synaptica-exec/src/expression.rs:15-39 | Whatever columns a row has, `v.p` is the node's property or null: dotted column, bare column and map access agree. |
| PatternRows.ColumnsIrrelevant | crates/synaptica-exec/src/expression.rs:8-162 | The value of such an expression does not depend on which property columns the scan produced. |
| PlanEquivalence.FilterEquivalent | crates/synaptica-exec/src/engine.rs:566-580 | Filters of equivalent inputs succeed together with equivalent results. |
| PlanEquivalence.LimitEquivalent | crates/synaptica-exec/src/engine.rs:890-903 | Limits of equivalent inputs are equivalent. |
| PlanEquivalence.SortEquivalent | crates/synaptica-exec/src/engine.rs:907-946 | Sorts of equivalent inputs succeed together with equivalent results. |
| PlanEquivalence.ProjectEquivalent | crates/synaptica-exec/src/engine.rs:583-653 | Projections of equivalent inputs give one and the same result. |
| PlanLaws.FilterMeaning | crates/synaptica-exec/src/engine.rs:566-580 | A filter keeps exactly the rows on which its predicate is true, in order, where it has a value on every row, and else fails with the first row's error. |
| PlanLaws.LimitMeaning | crates/synaptica-exec/src/engine.rs:890-903 | As many rows as are left after the offset, at most the count, and they are the rows from the offset on. |
| PlanLaws.ProjectMeaning | crates/synaptica-exec/src/engine.rs:583-640 | A column for each expression, under its alias where it has one, then the internal columns that are not projected; each row holds the values of the expressions on its input row, then its internal values. |
| PlanLaws.ValuesCompare | crates/synaptica-exec/src/engine.rs:2066-2083 | Nulls first, then numbers by size, strings by their characters, and false before true. |
| PlanLaws.RowsCompare | crates/synaptica-exec/src/engine.rs:907-945 | Rows compare by the first sort key on which they differ, in its direction. |
| PlanLaws.SortMeaning | crates/synaptica-exec/src/engine.rs:907-945 | Where each key has values of one kind, a stable sort gives the same rows, none before one it should follow, and rows that tie on all keys in the order they had. |
| PlanLaws.NoOrderAcrossTypes | crates/synaptica-exec/src/engine.rs:2066-2083 | Across types the comparison is no order: 1 and 2 both tie with a string. |
| IndexRewrite.ExtractEqPredicates | crates/synaptica-exec/src/engine.rs:1793-1832 | The out-vectors receive exactly the equalities and the other conjuncts of an AND chain, in order. |
| IndexRewrite.FindCover | crates/synaptica-exec/src/engine.rs:1735-1751 | Finds for each indexed property the first equality on it, or reports that one has none. |
| IndexRewrite.Reduce | crates/synaptica-exec/src/engine.rs:1763-1776 | Joins the remaining parts by AND to the left. |
| IndexRewrite.TryRewrite | crates/synaptica-exec/src/engine.rs:1703-1790 | The search over the indexes returns the index scan of the first node index all of whose properties are equated with literals. |
| RewriteMeaning.JudgeConjuncts | crates/synaptica-exec/src/expression.rs:40-76 | Any nesting of ANDs is judged as the list of its conjuncts, under short-circuit three-valued logic with errors. |
| RewriteMeaning.EqualityMeaning | crates/synaptica-exec/src/engine.rs:1793-1832 | A property equated with a literal that has a value (a null, a boolean, a number or a string), either way round, is true or false and never fails. |
| RewriteMeaning.Reordered | crates/synaptica-exec/src/engine.rs:1793-1832 | Moving the equalities in front of the other conjuncts can only avoid errors, and keeps what is true true. |
| RewriteMeaning.UnusedJudged | crates/synaptica-exec/src/engine.rs:1754-1761 | Leaving out equalities that hold does not change the verdict. |
| RewriteMeaning.NodeUnderRewrite | crates/synaptica-exec/src/engine.rs:1703-1790 | Where the predicate does not fail on a node: if the covering equalities hold, the remaining predicate agrees with it; if not, it is not true. |
| LookupAnswers.SameEncodingIffEqual | crates/synaptica-storage/src/index.rs:54-106 | A stored value and a scalar literal are encoded alike but unequal exactly when one is a NaN with the other's image, and equal but encoded apart exactly when they are the two zeros; so the encoding decides equality if and only if the two are not confused. |
| LookupAnswers.NaNTakenFor | crates/synaptica-storage/src/index.rs:67-76 | The literals some stored NaN is taken for are the two zeros and the positive subnormals short of the greatest, no others. |
| LookupAnswers.LookupJudgedExactly | crates/synaptica-exec/src/engine.rs:1379-1389 | A lookup finds a node wrongly if and only if some value is a NaN taken for its literal and the others agree, and misses it wrongly if and only if some value is the other zero, or the node has none of the indexed properties, and the others agree. |
| LookupAnswers.AgreeUnlessConfused | crates/synaptica-exec/src/engine.rs:1379-1389 | Where no value is confused with its literal, the lookup and the covering equalities agree on a node if and only if it has an indexed property or some literal is not null. |
| LookupAnswers.NegativeZeroIsMissed | crates/synaptica-storage/src/index.rs:67-76 | A stored -0.0 satisfies `v.p = 0.0`, and the lookup of 0.0 misses it. |
| LookupAnswers.NaNIsFound | crates/synaptica-storage/src/index.rs:67-76 | A stored NaN does not satisfy `v.p = 0.0`, and the lookup of 0.0 finds it. |
| LookupAnswers.NullIsNotSearched | crates/synaptica-exec/src/engine.rs:1858-1860 | A node without the property satisfies `v.p = null`, and no lookup finds it. |
| OptimizerTheorem.NodeStep | crates/synaptica-exec/src/engine.rs:1703-1790 | On one node, looking it up and judging the rest of the predicate agrees with judging the whole predicate if and only if the node is rightly judged: missed wrongly only where the predicate is not true, found wrongly only where the rest is not true and does not fail. |
| OptimizerTheorem.SameKeptIff | crates/synaptica-exec/src/engine.rs:1360-1456 | The index scan keeps the nodes the filtered scan keeps, in the same order, if and only if every node with the labels is rightly judged. |
| OptimizerTheorem.UnconfusedIsHarmless | crates/synaptica-exec/src/engine.rs:1614-1876 | Every node is, where some looked-up literal is not null and no stored value is confused with its literal. |
| RewriteLaws.RewrittenIff | crates/synaptica-exec/src/engine.rs:1614-1702 | A filter over a scan becomes an index scan if and only if some node index has properties that are all equated with literals by conjuncts of the predicate, either way round; otherwise the plan stays as it is. |
| RewriteLaws.RewrittenTo | crates/synaptica-exec/src/engine.rs:1703-1790 | Then the first such index is scanned, for the scan's labels and variable, with a literal that some conjunct equates with each property in turn. |
| RewriteLaws.ConjunctsExactly | crates/synaptica-exec/src/engine.rs:1793-1832 | The collected conjuncts are exactly the parts that AND joins. |
| RewriteLaws.OptimizeSettles | crates/synaptica-exec/src/engine.rs:1614-1702 | In an optimized plan no filter stands over a scan that some index answers, wherever it stood. |
| OptimizerTheorem.FilterBecomesIndexScan | crates/synaptica-exec/src/engine.rs:1614-1876 | Where the filtered scan succeeds, the index scan that replaces it succeeds with the same nodes in the same order if and only if the lookup is harmless, for a coherent chosen index and literals that have values. |
| OptimizerTheorem.OptimizePreservesMeaning | crates/synaptica-exec/src/engine.rs:1614-1700 | For every pipeline of scan, filters, sorts, limits and projections whose rewritten lookup, if there is one, is harmless: where it succeeds it succeeds optimized, with the same nodes in the same order; so an error of the rewritten plan is an error of the original. |
| OptimizerTheorem.BareNameNeedsColumn | crates/synaptica-exec/src/expression.rs:11-14 | A bare property name evaluates if and only if some scanned node has the property: the variable-only assumption is needed. |
| OptimizerTheorem.AnonymousNeedsColumn | crates/synaptica-exec/src/engine.rs:1862-1876 | For an anonymous pattern a rebuilt equality evaluates if and only if the property is a column: a named variable is needed. |
| QueryExecution.ExecScan | crates/synaptica-exec/src/engine.rs:322-391 | The scan over the stored graph produces the rows of the plan semantics. |
| QueryExecution.ExecFilter | crates/synaptica-exec/src/engine.rs:566-580 | The filtering loop keeps exactly the rows on which the predicate is true, and returns the first error. |
| QueryExecution.LoadNodes | crates/synaptica-exec/src/engine.rs:1391-1402 | Loads the nodes the ids name, skipping missing ones and those without all labels. |
| QueryExecution.ExecIndexScan | crates/synaptica-exec/src/engine.rs:1360-1456 | The index scan over the stored graph and index family produces the result of the plan semantics. |
| ParserRoundTrip.ParseInvertsPrint | crates/synaptica-gql/src/parser.rs:1046-1488 | For every expression the grammar can produce within the depth limit, parsing its minimally parenthesised tokens, before a token that continues nothing, returns that tree and consumes exactly those tokens. |
| ParserRoundTrip.ParsePrinted | crates/synaptica-gql/src/parser.rs:1046-1430 | The same at every level of the ladder: left association, precedence, prefix, comparison and postfix operators. |
| ParserRoundTrip.ParsePrintedEntries | crates/synaptica-gql/src/parser.rs:979-996 | Printed `key: value` entries are read back as those entries. |
| ParserRoundTrip.ParsePrintedCase | crates/synaptica-gql/src/parser.rs:1459-1488 | A printed CASE expression is read back. |
| ParserRoundTrip.ParsePrintedAggregate | crates/synaptica-gql/src/parser.rs:1432-1457 | A printed aggregate is read back. |
| ParserRoundTrip.ChainedComparisonRejected | crates/synaptica-gql/src/parser.rs:1107-1164 | A second comparison operator in one chain is an error. |
| ParserRoundTrip.DeepNotRejected | crates/synaptica-gql/src/parser.rs:130-141 | Prefix operators nested beyond the limit are rejected, whatever they are applied to. |
| GrammarLaws.Precedence | crates/synaptica-gql/src/parser.rs:1046-1243 | Between two operators written between three names the tighter one takes the middle name, the left one where both bind alike, by a table of bindings apart from the grammar: OR, XOR, AND, comparisons, concatenation, sums, products; two comparisons in a row are an error. |
| GrammarLaws.NotPrecedence | crates/synaptica-gql/src/parser.rs:1092-1105 | NOT takes a comparison or anything tighter whole, and binds tighter than AND, XOR and OR. |
| GrammarLaws.SignPrecedence | crates/synaptica-gql/src/parser.rs:1245-1282 | A sign binds tighter than every operator between operands and looser than property access. |
| GrammarLaws.NotsReadIff | crates/synaptica-gql/src/parser.rs:1092-1105 | A name with NOTs in front is read, as that many negations, if and only if there are at most 256. |
| GrammarLaws.SignsReadIff | crates/synaptica-gql/src/parser.rs:1245-1269 | Likewise for signs. |
| GrammarLaws.NestedReadIff | crates/synaptica-gql/src/parser.rs:130-140 | A name in nested parentheses is read if and only if there are at most 256 of them. |
| Parsers.CommentsDropped | crates/synaptica-gql/src/parser.rs:48-58 | The parser reads every token but the comments, in order. |
| Parsers.Parser.EnterDepth | crates/synaptica-gql/src/parser.rs:130-141 | Raises the depth counter and fails exactly above the limit; an error leaves it raised. |
| Parsers.Parser.ParseExpr | crates/synaptica-gql/src/parser.rs:1046-1048 | Succeeds and fails as the grammar does, with the same tree and rest, unless it read an EXISTS; moves past at least one token, never past the final Eof, and gives the depth counter back. |
| Parsers.Parser.ParseFoldedLevel | crates/synaptica-gql/src/parser.rs:1050-1090 | A left-associative level, rebuilding the left operand in a loop, agrees with the grammar. |
| Parsers.Parser.ParseNot | crates/synaptica-gql/src/parser.rs:1092-1105 | Agrees with the grammar and restores the depth counter. |
| Parsers.Parser.ParseComparison | crates/synaptica-gql/src/parser.rs:1107-1164 | At most one comparison operator per chain; IS NULL, IN and LIKE may follow one another; agrees with the grammar. |
| Parsers.Parser.ParseUnary | crates/synaptica-gql/src/parser.rs:1245-1269 | Agrees with the grammar and restores the depth counter. |
| Parsers.Parser.ParsePostfix | crates/synaptica-gql/src/parser.rs:1271-1282 | Chains of property accesses agree with the grammar. |
| Parsers.Parser.ParsePrimaryExpr | crates/synaptica-gql/src/parser.rs:1284-1430 | Literals, names, calls, lists, maps, parentheses, CASE and aggregates agree with the grammar. |
| Parsers.Parser.ParsePropertyMapTokens | crates/synaptica-gql/src/parser.rs:979-996 | A property map agrees with the grammar, keywords as keys included. |
| Parsers.Parser.ParseExists | crates/synaptica-gql/src/parser.rs:1353-1362 | Moves forward, not past Eof, and gives the depth counter back. |
| Parsers.Parser.Parse | crates/synaptica-gql/src/parser.rs:60-70 | The top-level loop ends; on success every token up to the Eof was consumed, by statements that each took at least one. |
| Parsers.Parser.ParseStatement | crates/synaptica-gql/src/parser.rs:246-266 | A successful statement takes at least one token, never moves past Eof, and gives the depth counter back. |
| Parsers.Parser.MaybeParseComposite | crates/synaptica-gql/src/parser.rs:768-810 | UNION, INTERSECT and EXCEPT nest under the same depth counter, which is given back. |
| Parsers.Parser.ParseGraphPattern | crates/synaptica-gql/src/parser.rs:812-818 | Moves forward, not past Eof, with the depth counter given back. |
| Parsers.Parser.ParseOptionalQuantifier | crates/synaptica-gql/src/parser.rs:998-1044 | Moves forward or not at all, not past Eof, with the depth counter given back. |
| Lexers.TokenShrinks | crates/synaptica-gql/src/lexer.rs:294-342 | Where characters are left a token consumes at least one and is not Eof, so lexing ends. |
| Lexers.SymbolIsLongest | crates/synaptica-gql/src/lexer.rs:545-640 | The symbol read is spelled by the characters taken, and no spelling of a symbol that starts there is longer. |
| Keywords.KeywordsSpelled | crates/synaptica-gql/src/lexer.rs:176-260 | A word is a keyword if and only if some keyword is spelled so, in letters of any case, and then it is one spelled so; by a table of spellings apart from the lexer's. |
| Keywords.NamesSpelled | crates/synaptica-gql/src/parser.rs:168-242 | The name a keyword has as a key is its spelling in lower case. |
| LexerLaws.BlankMeaning | crates/synaptica-gql/src/lexer.rs:390-395 | Spaces, tabs, line ends and form feeds before a token are skipped, and nothing else is. |
| LexerLaws.WordMeaning | crates/synaptica-gql/src/lexer.rs:519-527 | A whole word of ASCII letters, digits and underscores, no digit first, is one token: the keyword it is spelled like, or an identifier as written. |
| LexerLaws.ParameterMeaning | crates/synaptica-gql/src/lexer.rs:529-543 | A dollar sign and a word are a parameter of that name; a dollar sign without a word is an error. |
| LexerLaws.StringMeaning | crates/synaptica-gql/src/lexer.rs:437-465 | A quote starts a literal of a text if and only if the text follows with each of its quotes doubled, up to a closing single quote. |
| LexerLaws.LineCommentMeaning | crates/synaptica-gql/src/lexer.rs:399-410 | Two dashes start a comment up to the end of the line, which stays. |
| LexerLaws.BlockCommentMeaning | crates/synaptica-gql/src/lexer.rs:412-435 | A comment ends at the first closing mark after its opening mark; without one it is an error. |
| LexerLaws.WholeMeaning | crates/synaptica-gql/src/lexer.rs:467-517 | Digits that no digit, fraction or exponent follows are an integer of 64 bits or an error. |
| LexerLaws.FloatMeaning | crates/synaptica-gql/src/lexer.rs:467-517 | Digits with a fraction, an exponent or both are the float that exactly their text is parsed as, or an error. |
| LexerLaws.SymbolMeaning | crates/synaptica-gql/src/lexer.rs:545-640 | Where a symbol is spelled and neither a longer one nor a comment, that symbol is read. |
| Lexers.Lexer.TokenizeAll | crates/synaptica-gql/src/lexer.rs:281-292 | The loop returns all tokens, the last and only the last Eof, or the first error, as the tokens are read off the characters. |
| Lexers.Lexer.Next | crates/synaptica-gql/src/lexer.rs:294-342 | One token after any whitespace; position, line and column stay those of the characters read. |
| Lexers.Lexer.LexStringLiteral | crates/synaptica-gql/src/lexer.rs:437-465 | A doubled quote stands for one; an unterminated string is an error. |
| Lexers.Lexer.LexNumberLiteral | crates/synaptica-gql/src/lexer.rs:467-517 | Digits with an optional fraction and exponent; an integer beyond 64 bits is an error. |
| Lexers.Lexer.LexWordOrKeyword | crates/synaptica-gql/src/lexer.rs:519-527 | A word is a keyword whatever its case, or an identifier as written. |
| Lexers.Lexer.LexParameterName | crates/synaptica-gql/src/lexer.rs:529-543 | A parameter is the word after the dollar sign, which may not be missing. |
| Lexers.Lexer.LexSymbol | crates/synaptica-gql/src/lexer.rs:545-640 | Takes the longest spelling of a symbol that the next characters are, moves past it and nothing else, and fails exactly when they start none. |
| Lexers.Lexer.LexBlock | crates/synaptica-gql/src/lexer.rs:412-435 | A block comment ends at its first closing mark; without one it is an error. |
| Lexers.Lexer.Advance | crates/synaptica-gql/src/lexer.rs:360-373 | Line and column count the newlines read and the characters since the last one. |
| Export.Display | crates/synaptica-core/src/types.rs:95-127 | Writing to the formatter in loops, separators before all but the first part, gives the value's text. |
| Export.LexShown | crates/synaptica-gql/src/lexer.rs:294-544 | The text of a value lexes to the tokens its expression prints as, whatever delimiter follows. |
| Export.EvaluatesBack | crates/synaptica-exec/src/expression.rs:118-131 | The expression a value is read back as evaluates to the value. |
| Export.ExportRoundTrip | crates/synaptica-storage/src/engine.rs:794-800 | For non-empty property maps whose keys are words and whose values are null, booleans, integers other than the least, quote-free strings, lists and nested maps with plain keys: the exported text lexes; parsing it as a property map succeeds, to the last token, if and only if every key has a name, and gives the written entries if and only if every key is its own name; evaluating these gives the map back. |
| Export.KeywordKeys | crates/synaptica-gql/src/parser.rs:168-242 | `order` comes back as itself, `Order` as `order`, and `mandatory` is no key. |
| Export.QuotedIffNoQuotes | crates/synaptica-core/src/types.rs:102 | A string comes back from its text if and only if it has no quote. |
| Export.LeastIntegerFails | crates/synaptica-gql/src/lexer.rs:467-517 | The text of the least integer does not lex: the exclusion is needed. |
| TwoPhaseSafety.ApplyKeeps | crates/synaptica-cluster/src/distributed_tx.rs:229-376 | Every coordinator call keeps the invariant, whatever the participants answer: each logged or sent event was justified by what came before, and every record agrees with the trace. |
| TwoPhaseSafety.RunKeeps | crates/synaptica-cluster/src/distributed_tx.rs:229-376 | The invariant holds in every run. |
| TwoPhaseSafety.CommitOnlyAfterAllYes | crates/synaptica-cluster/src/distributed_tx.rs:269-341 | A commit is logged only after the intent was, every participant it names voted yes, and no one asked answered otherwise. |
| TwoPhaseSafety.ToldOnlyAfterLogged | crates/synaptica-cluster/src/distributed_tx.rs:322-376 | No participant is told to commit before the commit is logged, nor to abort before the abort is. |
| TwoPhaseSafety.SplitIffFailedThenAborted | crates/synaptica-cluster/src/distributed_tx.rs:305-376 | A transaction has both decisions logged, or a participant committed and another aborted, if and only if a delivery of its commit failed and it was aborted afterwards. |
| TwoPhaseSafety.SplitHappens | crates/synaptica-cluster/src/distributed_tx.rs:305-376 | Such a run exists: one participant, a refused commit and an abort split a transaction. |
| TwoPhaseSafety.AbortSplitsIffCommitting | crates/synaptica-cluster/src/distributed_tx.rs:343-376 | An abort makes both decisions logged exactly when it is called in state Committing. |
| TwoPhaseSafety.CommittingIffDeliveryFailed | crates/synaptica-cluster/src/distributed_tx.rs:305-341 | A transaction whose commit was logged is Committed exactly when no delivery failed, and Committing exactly when one did and no abort followed. |
| TwoPhaseSafety.InDoubtInState | crates/synaptica-cluster/src/distributed_tx.rs:170-193 | The log leaves in doubt precisely the transactions that are Preparing or Prepared. |
| TwoPhaseSafety.CrashRecovery | crates/synaptica-cluster/src/distributed_tx.rs:147-193 | After a crash at any event the log in doubt names no transaction some participant was told to commit or abort, and every undecided one some participant was asked to prepare. |
| TwoPhaseOutcomes.PrepareMeaning | crates/synaptica-cluster/src/distributed_tx.rs:248-302 | Preparing logs the intent, then asks the participants in order and stops at the first that is unknown or answers otherwise than yes; it answers true if and only if there is none. |
| TwoPhaseOutcomes.CommitMeaning | crates/synaptica-cluster/src/distributed_tx.rs:305-341 | Committing logs the decision, then tells the participants in order and stops at the first that is unknown or fails; the transaction is committed if and only if there is none. |
| TwoPhaseOutcomes.AbortMeaning | crates/synaptica-cluster/src/distributed_tx.rs:343-376 | Aborting logs the decision and tells every known participant, in order, whatever they answer. |
| TwoPhaseOutcomes.AbortReachesAll | crates/synaptica-cluster/src/distributed_tx.rs:343-376 | In every run each known participant of an aborted transaction was told to abort. |
| TwoPhaseOutcomes.CommitReachesAll | crates/synaptica-cluster/src/distributed_tx.rs:305-341 | In every run each participant of a committed transaction was told to commit and did. |
| TwoPhaseOutcomes.OutOfTurn | crates/synaptica-cluster/src/distributed_tx.rs:229-376 | A call that comes out of turn changes nothing and says why. |
| TwoPhaseCommit.DecisionLog.InDoubtTransactions | crates/synaptica-cluster/src/distributed_tx.rs:170-193 | Returns exactly the transactions with a prepare record and no decision, each once. |
| TwoPhaseCommit.TwoPhaseCoordinator.constructor | crates/synaptica-cluster/src/distributed_tx.rs:219-226 | Starts with nothing logged and no transaction. |
| TwoPhaseCommit.TwoPhaseCoordinator.BeginDistributedTx | crates/synaptica-cluster/src/distributed_tx.rs:229-243 | Issues an id that is not in use. |
| TwoPhaseCommit.TwoPhaseCoordinator.PrepareAll | crates/synaptica-cluster/src/distributed_tx.rs:248-302 | Logs the intent, asks in order, stops at the first answer other than yes, and keeps the invariant. |
| TwoPhaseCommit.TwoPhaseCoordinator.CommitAll | crates/synaptica-cluster/src/distributed_tx.rs:305-341 | Logs the decision, then tells participants in order up to the first failure, and keeps the invariant. |
| TwoPhaseCommit.TwoPhaseCoordinator.AbortAll | crates/synaptica-cluster/src/distributed_tx.rs:343-376 | Logs the decision, then tells every known participant whatever they answer, and keeps the invariant. |
| TwoPhaseCommit.TwoPhaseCoordinator.Recover | crates/synaptica-cluster/src/distributed_tx.rs:382-385 | Returns precisely the transactions that are Preparing or Prepared, each once. |
| RaftLog.RangeReadIsSlice | crates/synaptica-cluster/src/log_store.rs:90-116 | On a store that refines the indexed log, a range read is the slice of the log in that range. |
| RaftLog.RangeReadExact | crates/synaptica-cluster/src/log_store.rs:90-116 | A range read returns exactly the stored entries with an index in the range, in ascending order. |
| RaftLog.StateIsLast | crates/synaptica-cluster/src/log_store.rs:118-209 | On a store that refines the indexed log, the reported last entry is the last of the log, or the purged id when the log is empty. |
| RaftLog.AppendRefines | crates/synaptica-cluster/src/log_store.rs:299-311 | Appending entries that follow on extends the indexed log by them. |
| RaftLog.DeleteRefines | crates/synaptica-cluster/src/log_store.rs:132-147 | Deleting a conflict leaves the indexed log's entries below the index. |
| RaftLog.PurgeRefinesIff | crates/synaptica-cluster/src/log_store.rs:149-164 | A purge leaves a log starting just above the purged index if and only if it does not move back below an earlier purge of a non-empty log and does not stop at the greatest index while an entry is stored there. |
| RaftLog.RunRefines | crates/synaptica-cluster/src/log_store.rs:285-311 | In every run the stored indices form one interval starting just above the last purged index, holding the entries of the indexed log. |
| RaftLog.RocksLogStore.AppendToLog | crates/synaptica-cluster/src/log_store.rs:299-311 | Every entry is stored under its index, later ones replacing earlier ones. |
| RaftLog.RocksLogStore.DeleteConflictLogsSince | crates/synaptica-cluster/src/log_store.rs:285-290 | Removes exactly the entries at or above the index. |
| RaftLog.RocksLogStore.PurgeLogsUpto | crates/synaptica-cluster/src/log_store.rs:292-297 | Records the purged id and removes exactly the entries below the saturated end key. |
| RaftLog.RocksLogStore.ReadLogEntries | crates/synaptica-cluster/src/log_store.rs:90-116 | The scan that stops at the end index returns the entries in the range. |
| RaftLog.RocksLogStore.TryGetLogEntries | crates/synaptica-cluster/src/log_store.rs:169-184 | For any pair of bounds returns exactly the stored entries between them, in ascending order. |
| RaftLog.RocksLogStore.GetLogState | crates/synaptica-cluster/src/log_store.rs:118-209 | Reports the purged id, and as last id that of the entry under the greatest key, or the purged id when nothing is stored. |
| HashJoin.KeysEqual | crates/synaptica-exec/src/engine.rs:1012-1030 | Two join keys are equal exactly when every part renders the same: the separator byte keeps parts apart. |
| HashJoin.BucketIsMatches | crates/synaptica-exec/src/engine.rs:1008-1042 | The bucket under a left row's key lists exactly the right rows that agree with it, in order. |
| HashJoin.ExecJoin | crates/synaptica-exec/src/engine.rs:978-1046 | For every pair of result sets the hash join, cross-join fallback included, gives exactly the rows of the nested loop on the shared columns, left-major, then in right order. |
| HashJoin.CrossJoin | crates/synaptica-exec/src/engine.rs:1048-1060 | With nothing shared every left row meets every right row in order. |
| HashJoin.JoinedRowShowsBoth | crates/synaptica-exec/src/engine.rs:998-1006 | A joined row shows the left row's columns and every joinable column of the right row with that row's value, where the rendering tells the two rows' values of the shared columns apart. |
| JoinLaws.JoinMeaning | crates/synaptica-exec/src/engine.rs:978-1060 | A row for each pair of a left and a right row that render the same under every name with a dot in it and no leading `__` that both sides have, and for no other pair, left-major; the columns are the left ones and the right ones not joined on. |
| JoinLaws.AgreeBySets | crates/synaptica-exec/src/engine.rs:978-1006 | Where no left name repeats, that is agreement under the set of common names. |

## Left out

- Parsers.Parser.Parse: statements are recognized, not built; a statement is known by the tokens it consumed. The methods for the single statements and clauses carry the same progress and depth contract as `ParseStatement` and have no row of their own.
- Parsers.Parser.ParseStatement: as `Parse`.
- Parsers.Parser.MaybeParseComposite: as `Parse`.
- Parsers.Parser.ParseGraphPattern: as `Parse`.
- Parsers.Parser.ParseOptionalQuantifier: as `Parse`.
- Parsers.Parser.ParseExists: a subquery is known by its tokens; an expression method agrees with the grammar unless it has read an EXISTS.
- ParserRoundTrip.ParseInvertsPrint: EXISTS is outside the printed expressions, for the same reason.
- ParserRoundTrip.ParsePrinted: as `ParseInvertsPrint`.
- Parsers.Parser.ParseFoldedLevel: one method with a level stands for the six left-associative methods of the ladder.
- ExecutionEngines.ExecutionEngine.ExecSetProperty: when it fails part way, the rows before the failure stay written; the contract then says only that storage and indexes are still consistent.
- ExecutionEngines.ExecutionEngine.ExecDeleteNodes: likewise when it fails; ids are sixteen bytes, so reading an id never fails.
- ExecutionEngines.ExecutionEngine.ExpandNode: the hops of one source row as a set; their order, and the columns an expansion builds from them, are not stated.
- Transactions.TimestampOracle.Next: requires a timestamp to be left; the counter wraps around after 2^64 - 1 timestamps.
- Transactions.TransactionManager.Begin: requires a timestamp to be left; the counter wraps around after 2^64 - 1 timestamps, and issued timestamps repeat then.
- Transactions.TransactionManager.Commit: as `Begin`; pruning at the end of a commit uses the same watermark arithmetic as the program.
- RaftLog.RocksLogStore.TryGetLogEntries: an exclusive lower bound or inclusive upper bound at the greatest index overflows in the program and is required away.
- Interleavings inside one method (a begin during a commit, an abort during a prepare): each method call is one step.
- Persistence of the timestamp oracle, `batch_put_at`, and restarts of the transaction manager: the in-memory counter is the source of timestamps.
- Integer overflow in arithmetic on values is an error of the evaluation, as in a build with overflow checks.
- Aggregation in projections, DISTINCT, joins and expansions as plan nodes under the optimizer, and creation of edges from a match.
- The sort itself is the library's: any function of the comparisons of rows, stable in `PlanLaws.SortMeaning`; what it does with rows whose keys have values of several kinds is not stated.
- Built-in functions, dates, times, durations, `LIKE` and parameters in evaluation.
- Export.Display: the text of floats, binary, temporal, node and edge values is not modelled, so a map with such a value is outside the export round trip.
- Export.ExportRoundTrip: keys that are not words, and values with quotes or the least integer inside a map, are excluded and not characterised for whole maps.
- OptimizerTheorem.OptimizePreservesMeaning: looked-up literals are scalars, as the parser makes them; no node carries another label that shares the scanned label's key (`LabelsApart`, vacuous up to 65535 bytes); and no stored property is named like the variable, the id or label column, or with the variable and a dot in front, where columns would clash (`PlainSet`).
- Graph metadata, backup, import by file, full-text and vector search, metrics, authorization, servers, command line and user interface.
- Raft votes, committed and applied markers, membership and snapshots.
- The write-ahead file of the two-phase log: the log after a crash is a prefix of what was logged; a torn last line is dropped when the file is read.
- Partitioning, rebalancing, routing, membership and health of a cluster.
