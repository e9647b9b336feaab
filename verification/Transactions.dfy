/**
 The timestamp oracle, transactions and the transaction manager as objects over
 the byte-level store. Each method does what its step of the state machine does.
 */
module Transactions {
  import opened Bytes
  import opened Wrappers
  import opened VersionedKeys
  import opened MvccStores
  import opened TransactionModel

  class TimestampOracle {
    var counter: u64

    constructor ()
      ensures counter == 1
    {
      counter := 1;
    }

    /** `fetch_add(1)`, short of the last value, where it would wrap around. */
    method Next() returns (ts: u64)
      requires counter < U64_MAX
      modifies this
      ensures ts == old(counter) && counter == old(counter) + 1
    {
      ts := counter;
      counter := counter + 1;
    }

    method Current() returns (ts: u64)
      ensures ts == counter
    {
      ts := counter;
    }
  }

  class Transaction {
    const id: u64
    const snapshotTs: u64
    const store: MvccStore
    var state: TxState
    var writeSet: seq<VersionedWrite>

    constructor (id: u64, snapshotTs: u64, store: MvccStore)
      ensures View() == Tx(id, snapshotTs, Active, []) && this.store == store
    {
      this.id := id;
      this.snapshotTs := snapshotTs;
      this.store := store;
      state := Active;
      writeSet := [];
    }

    function View(): Tx
      reads this
    {
      Tx(id, snapshotTs, state, writeSet)
    }

    /** The latest buffered write to the key, else the committed value the snapshot sees. */
    method Get(ghost manager: TransactionManager, cf: string, key: Bytes) returns (r: TxResult<Option<Bytes>>)
      requires manager.Valid() && manager.store == store
      requires cf in store.tables ==> PrefixFree(UserKeys(store.tables[cf]))
      ensures r == ReadStep(manager.Model(), View(), cf, key)
    {
      if state != Active {
        return Failure(NotActive);
      }
      var i := |writeSet|;
      assert writeSet[..i] == writeSet;
      while i > 0
        invariant 0 <= i <= |writeSet|
        invariant LastWrite(writeSet, cf, key) == LastWrite(writeSet[..i], cf, key)
      {
        i := i - 1;
        assert writeSet[..i + 1][..i] == writeSet[..i];
        if writeSet[i].cf == cf && writeSet[i].key == key {
          return Success(writeSet[i].value);
        }
      }
      ReplayVersioned(manager.families, manager.history);
      if cf in store.tables {
        ReplayVisible(manager.families, manager.history, cf, key, snapshotTs);
      }
      var read := store.GetAt(cf, key, snapshotTs);
      match read
      case Success(v) => return Success(v);
      case Failure(e) => return Failure(Mvcc(e));
    }

    method Put(cf: string, key: Bytes, value: Bytes) returns (r: TxResult<()>)
      modifies this
      ensures (View(), r) == WriteStep(old(View()), VersionedWrite(cf, key, Some(value)))
    {
      if state != Active {
        return Failure(NotActive);
      }
      writeSet := writeSet + [VersionedWrite(cf, key, Some(value))];
      return Success(());
    }

    method Delete(cf: string, key: Bytes) returns (r: TxResult<()>)
      modifies this
      ensures (View(), r) == WriteStep(old(View()), VersionedWrite(cf, key, None))
    {
      if state != Active {
        return Failure(NotActive);
      }
      writeSet := writeSet + [VersionedWrite(cf, key, None)];
      return Success(());
    }
  }

  /** The nested loops of the conflict check: every newer entry, every key in it. */
  method CheckConflict(table: ConflictTable, snapshotTs: u64, writeKeys: set<KeyRef>) returns (conflict: bool)
    ensures conflict == Conflicts(table, snapshotTs, writeKeys)
  {
    var unseen := table.Keys;
    while unseen != {}
      invariant unseen <= table.Keys
      invariant forall ts, k :: ts in table && ts !in unseen && ts > snapshotTs && k in table[ts] ==> k !in writeKeys
      decreases unseen
    {
      var commitTs :| commitTs in unseen;
      if commitTs > snapshotTs {
        var keys := table[commitTs];
        var i := 0;
        while i < |keys|
          invariant 0 <= i <= |keys| && forall j :: 0 <= j < i ==> keys[j] !in writeKeys
        {
          if keys[i] in writeKeys {
            return true;
          }
          i := i + 1;
        }
      }
      unseen := unseen - {commitTs};
    }
    return false;
  }

  class TransactionManager {
    const store: MvccStore
    const oracle: TimestampOracle
    var committedWrites: ConflictTable
    var gcWatermark: u64
    /** Every commit so far, and the highest watermark anything was pruned with. */
    ghost var families: set<string>
    ghost var history: seq<CommitRecord>
    ghost var watermark: nat

    /** The store holds exactly what the committed transactions wrote. */
    ghost predicate Valid()
      reads this, store, oracle
    {
      && oracle.counter > 0
      && HistoryKnown(families, history) && Increasing(history)
      && (forall r :: r in history ==> r.ts < oracle.counter)
      && store.tables == Replay(families, history)
    }

    ghost function Model(): Manager
      reads this, oracle
    {
      Manager(families, oracle.counter, committedWrites, gcWatermark, history, watermark)
    }

    constructor (store: MvccStore, oracle: TimestampOracle)
      requires store.tables == (map cf | cf in store.tables :: map[]) && oracle.counter == 1
      ensures Valid() && Model() == Manager(store.tables.Keys, 1, map[], 0, [], 0)
      ensures this.store == store && this.oracle == oracle
    {
      this.store := store;
      this.oracle := oracle;
      committedWrites := map[];
      gcWatermark := 0;
      families := store.tables.Keys;
      history := [];
      watermark := 0;
    }

    method Begin() returns (tx: Transaction)
      requires Valid() && oracle.counter < U64_MAX
      modifies oracle
      ensures Valid() && fresh(tx) && tx.store == store
      ensures (Model(), tx.View()) == BeginStep(old(Model()))
    {
      var txId := oracle.Next();
      tx := new Transaction(txId, txId - 1, store);
    }

    method Commit(tx: Transaction) returns (r: TxResult<u64>)
      requires Valid() && oracle.counter < U64_MAX
      requires tx.store == store
      modifies this, store, oracle, tx
      ensures Valid()
      ensures (Model(), tx.View(), r) == CommitStep(old(Model()), old(tx.View()))
    {
      hide Replay, Install, HistoryKnown, Increasing, KeyList, WriteKeys, Conflicts, Retain;
      if tx.state != Active {
        return Failure(AlreadyCommitted);
      }
      var writeKeys := WriteKeys(tx.writeSet);
      var conflict := CheckConflict(committedWrites, tx.snapshotTs, writeKeys);
      if conflict {
        return Failure(WriteConflict);
      }
      var commitTs := oracle.Next();
      ReplayVersioned(families, history);
      var written := store.BatchWriteAt(tx.writeSet, commitTs);
      if written.Failure? {
        return Failure(Mvcc(written.error));
      }
      ghost var record := CommitRecord(commitTs, tx.snapshotTs, tx.writeSet, watermark);
      AppendRecord(families, history, record);
      history := history + [record];
      committedWrites := committedWrites[commitTs := KeyList(tx.writeSet)];
      if |committedWrites| > GC_THRESHOLD {
        var w := if commitTs >= GC_THRESHOLD then commitTs - GC_THRESHOLD else 0;
        committedWrites := Retain(committedWrites, w);
        watermark := Max(watermark, w);
      }
      tx.state := Committed;
      return Success(commitTs);
    }

    method Rollback(tx: Transaction) returns (r: TxResult<()>)
      modifies tx
      ensures (tx.View(), r) == RollbackStep(old(tx.View()))
    {
      if tx.state != Active {
        return Failure(NotActive);
      }
      tx.state := RolledBack;
      return Success(());
    }

    method GcCommittedWrites(watermark: u64)
      requires Valid()
      modifies this
      ensures Valid()
      ensures Model() == PruneStep(old(Model()), watermark)
    {
      committedWrites := Retain(committedWrites, watermark);
      gcWatermark := watermark;
      this.watermark := Max(this.watermark, watermark);
    }
  }
}
