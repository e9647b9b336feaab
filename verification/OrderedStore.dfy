/**
 One RocksDB column family: a finite map from byte-string keys, read back in
 key order by seek and forward scan, and written by atomic batches.
 */
module OrderedStore {
  import opened Bytes

  // ----- key order -----

  ghost predicate StrictlySorted(s: seq<Bytes>) {
    forall i, j :: 0 <= i < j < |s| ==> Less(s[i], s[j])
  }

  lemma {:induction false} LeastExists(s: set<Bytes>)
    requires s != {}
    ensures exists k :: k in s && forall x :: x in s ==> AtMost(k, x)
  {
    var k :| k in s;
    if s != {k} {
      assert s - {k} < s;
      LeastExists(s - {k});
      var rest :| rest in s - {k} && forall x :: x in s - {k} ==> AtMost(rest, x);
      LessTotal(k, rest);
      if Less(rest, k) {
        k := rest;
      }
      forall x | x in s ensures AtMost(k, x) {
        if x in s - {k} && k != rest && rest != x {
          LessTransitive(k, rest, x);
        }
      }
    } else {
      assert forall x :: x in s ==> x == k;
    }
  }

  lemma LeastUnique(s: set<Bytes>)
    ensures forall a, b | a in s && b in s && AtMost(a, b) && AtMost(b, a) :: a == b
  {
    forall a, b | a in s && b in s && AtMost(a, b) && AtMost(b, a) ensures a == b {
      if a != b {
        LessAsymmetric(a, b);
      }
    }
  }

  function Least(s: set<Bytes>): (k: Bytes)
    requires s != {}
    ensures k in s && forall x :: x in s ==> AtMost(k, x)
  {
    LeastExists(s);
    LeastUnique(s);
    var k :| k in s && forall x | x in s :: AtMost(k, x);
    k
  }

  /** The keys of a column family in the order an iterator yields them. */
  function SortedKeys(s: set<Bytes>): (r: seq<Bytes>)
    ensures forall k :: k in s <==> k in r
    ensures |r| == |s|
  {
    if s == {} then []
    else
      var k := Least(s);
      [k] + SortedKeys(s - {k})
  }

  lemma {:induction false} SortedKeysSorted(s: set<Bytes>)
    ensures StrictlySorted(SortedKeys(s))
  {
    if s != {} {
      var k := Least(s);
      SortedKeysSorted(s - {k});
      assert forall x | x in s - {k} :: Less(k, x);
    }
  }

  lemma {:induction false} SortedUnique(a: seq<Bytes>, b: seq<Bytes>)
    requires StrictlySorted(a) && StrictlySorted(b)
    requires forall k :: k in a <==> k in b
    ensures a == b
  {
    assert |b| > 0 ==> b[0] in a;
    if a != [] {
      assert a[0] in b;
      SortedHeads(a, b);
      forall k ensures k in a[1..] <==> k in b[1..] {
        SortedTail(a, k);
        SortedTail(b, k);
      }
      SortedUnique(a[1..], b[1..]);
      assert a == [a[0]] + a[1..] && b == [b[0]] + b[1..];
    }
  }

  lemma SortedHeads(a: seq<Bytes>, b: seq<Bytes>)
    requires StrictlySorted(a) && StrictlySorted(b)
    requires a != [] && b != [] && a[0] in b && b[0] in a
    ensures a[0] == b[0]
  {
    if a[0] != b[0] {
      LessAsymmetric(a[0], b[0]);
    }
  }

  lemma SortedTail(a: seq<Bytes>, k: Bytes)
    requires StrictlySorted(a) && a != []
    ensures k in a[1..] <==> k in a && k != a[0]
  {
  }

  lemma SortedKeysDiffer(s: set<Bytes>, i: nat, j: nat)
    requires i < j < |SortedKeys(s)|
    ensures SortedKeys(s)[i] != SortedKeys(s)[j]
  {
    SortedKeysSorted(s);
    LessAsymmetric(SortedKeys(s)[i], SortedKeys(s)[j]);
  }

  /** In a sorted sequence a smaller key stands earlier. */
  lemma SortedPosition(a: seq<Bytes>, i: nat, j: nat)
    requires StrictlySorted(a) && i < |a| && j < |a|
    ensures Less(a[i], a[j]) <==> i < j
  {
    if j < i {
      LessAsymmetric(a[j], a[i]);
    }
  }

  // ----- iterators -----

  /** `IteratorMode::From(start, Forward)`: every key at or after `start`. */
  function KeysFrom(keys: set<Bytes>, start: Bytes): (r: seq<Bytes>)
    ensures forall k :: k in r ==> k in keys
  {
    SortedKeys(set k | k in keys && AtMost(start, k))
  }

  lemma KeysFromExactly(keys: set<Bytes>, start: Bytes)
    ensures StrictlySorted(KeysFrom(keys, start))
    ensures forall k :: k in KeysFrom(keys, start) <==> k in keys && AtMost(start, k)
  {
    SortedKeysSorted(set k | k in keys && AtMost(start, k));
  }

  /** Where the iterator meets a key at or after its start. */
  lemma KeyMet(keys: set<Bytes>, start: Bytes, k: Bytes) returns (i: nat)
    requires k in keys && AtMost(start, k)
    ensures i < |KeysFrom(keys, start)| && KeysFrom(keys, start)[i] == k
  {
    KeysFromExactly(keys, start);
    i :| 0 <= i < |KeysFrom(keys, start)| && KeysFrom(keys, start)[i] == k;
  }

  /** The iterator meets a smaller key earlier. */
  lemma MetInOrder(keys: set<Bytes>, start: Bytes, i: nat, j: nat)
    requires i < |KeysFrom(keys, start)| && j < |KeysFrom(keys, start)|
    ensures Less(KeysFrom(keys, start)[i], KeysFrom(keys, start)[j]) <==> i < j
    ensures AtMost(KeysFrom(keys, start)[i], KeysFrom(keys, start)[j]) <==> i <= j
    ensures AtMost(start, KeysFrom(keys, start)[i])
  {
    KeysFromExactly(keys, start);
    SortedPosition(KeysFrom(keys, start), i, j);
    SortedPosition(KeysFrom(keys, start), j, i);
  }

  /** Every key that extends `prefix`, in order. */
  function KeysWithPrefix(keys: set<Bytes>, prefix: Bytes): (r: seq<Bytes>)
    ensures forall k :: k in r <==> k in keys && prefix <= k
  {
    SortedKeys(set k | k in keys && prefix <= k)
  }

  /**
   The prefix scan every reader of the store performs: seek to the prefix and
   stop at the first key that does not extend it.
   */
  method ScanPrefix(keys: set<Bytes>, prefix: Bytes) returns (found: seq<Bytes>)
    ensures found == KeysWithPrefix(keys, prefix)
  {
    var iter := KeysFrom(keys, prefix);
    found := [];
    var i := 0;
    while i < |iter|
      invariant 0 <= i <= |iter| && found == iter[..i]
      invariant forall k :: k in found ==> prefix <= k
    {
      if !(prefix <= iter[i]) {
        break;
      }
      found := found + [iter[i]];
      i := i + 1;
    }
    PrefixScanStops(keys, prefix, i);
  }

  lemma PrefixScanStops(keys: set<Bytes>, prefix: Bytes, i: nat)
    requires i <= |KeysFrom(keys, prefix)|
    requires forall k :: k in KeysFrom(keys, prefix)[..i] ==> prefix <= k
    requires i < |KeysFrom(keys, prefix)| ==> !(prefix <= KeysFrom(keys, prefix)[i])
    ensures KeysFrom(keys, prefix)[..i] == KeysWithPrefix(keys, prefix)
  {
    var iter := KeysFrom(keys, prefix);
    forall k | k in keys && prefix <= k ensures k in iter[..i] {
      PrefixAtMost(prefix, k);
      var j := KeyMet(keys, prefix, k);
      if j >= i {
        MetInOrder(keys, prefix, i, j);
        PrefixConvex(prefix, prefix, iter[i], k);
      }
    }
    KeysFromExactly(keys, prefix);
    SortedKeysSorted(set k | k in keys && prefix <= k);
    SortedUnique(iter[..i], KeysWithPrefix(keys, prefix));
  }

  // ----- write batches -----

  datatype BatchOp<V> = Put(key: Bytes, value: V) | Delete(key: Bytes)

  /** `db.write(batch)`: the operations take effect in order, so the last one on a key wins. */
  function Write<V>(table: map<Bytes, V>, batch: seq<BatchOp<V>>): map<Bytes, V> {
    if batch == [] then table
    else
      var before := Write(table, batch[..|batch| - 1]);
      match batch[|batch| - 1]
      case Put(k, v) => before[k := v]
      case Delete(k) => before - {k}
  }

  lemma {:induction false} WriteDeletes<V>(table: map<Bytes, V>, keys: seq<Bytes>, batch: seq<BatchOp<V>>)
    requires |batch| == |keys| && forall i :: 0 <= i < |keys| ==> batch[i] == Delete(keys[i])
    ensures Write(table, batch) == table - (set k | k in keys)
  {
    if keys == [] {
      assert table - (set k | k in keys) == table;
    } else {
      var n := |keys| - 1;
      WriteDeletes(table, keys[..n], batch[..n]);
      assert (set k | k in keys) == (set k | k in keys[..n]) + {keys[n]};
    }
  }

  /** A batch of one deletion per key. */
  function DeleteAll<V>(keys: seq<Bytes>): (batch: seq<BatchOp<V>>)
    ensures |batch| == |keys| && forall i :: 0 <= i < |keys| ==> batch[i] == Delete(keys[i])
  {
    seq(|keys|, i requires 0 <= i < |keys| => Delete(keys[i]))
  }
}
