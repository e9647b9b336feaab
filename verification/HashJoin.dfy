/** `exec_join`: a hash join that equals the nested loop on the shared columns. */
module HashJoin {
  import opened Bytes
  import opened Wrappers
  import opened Values
  import opened Expressions

  type Row = seq<Value>
  type Pairs = seq<(nat, nat)>

  predicate Below(positions: seq<nat>, n: nat) {
    forall i :: 0 <= i < |positions| ==> positions[i] < n
  }

  predicate Within(pairs: Pairs, m: nat, n: nat) {
    forall i :: 0 <= i < |pairs| ==> pairs[i].0 < m && pairs[i].1 < n
  }

  predicate Wide(rows: seq<Row>, n: nat) {
    forall i :: 0 <= i < |rows| ==> |rows[i]| == n
  }

  /** The columns joined on: they name a property of a variable, and are not internal. */
  predicate Joinable(column: string) {
    '.' in column && !("__" <= column)
  }

  /** Pairs of positions of the shared columns, in the order of the left columns. */
  function Shared(left: seq<string>, right: seq<string>): (r: Pairs)
    ensures Within(r, |left|, |right|)
  {
    if left == [] then []
    else
      var n := |left| - 1;
      var before := Shared(left[..n], right);
      var p := Position(right, left[n]);
      if Joinable(left[n]) && p.Some? then before + [(n, p.value)] else before
  }

  predicate Names(shared: Pairs, ri: nat) {
    exists i :: 0 <= i < |shared| && shared[i].1 == ri
  }

  /** The right positions below `n` that no shared pair names, in order. */
  function Kept(n: nat, shared: Pairs): (r: seq<nat>)
    ensures Below(r, n)
  {
    if n == 0 then []
    else if Names(shared, n - 1) then Kept(n - 1, shared)
    else Kept(n - 1, shared) + [n - 1]
  }

  function Pick<T>(from: seq<T>, positions: seq<nat>): (r: seq<T>)
    requires Below(positions, |from|)
    ensures |r| == |positions| && forall i :: 0 <= i < |positions| ==> r[i] == from[positions[i]]
  {
    seq(|positions|, i requires 0 <= i < |positions| => from[positions[i]])
  }

  // ----- the nested loop -----

  /** How a value is written out for comparison. */
  type Rendering = Value -> Bytes

  /** The rows agree on every shared column. */
  predicate Agree(l: Row, r: Row, shared: Pairs, render: Rendering)
    requires Within(shared, |l|, |r|)
  {
    forall i :: 0 <= i < |shared| ==> render(l[shared[i].0]) == render(r[shared[i].1])
  }

  /** One left row against the first `n` right rows. */
  function MatchesOf(l: Row, right: seq<Row>, n: nat, width: nat, shared: Pairs, kept: seq<nat>,
                     render: Rendering): seq<Row>
    requires n <= |right| && Wide(right, width) && Within(shared, |l|, width) && Below(kept, width)
  {
    if n == 0 then []
    else
      var before := MatchesOf(l, right, n - 1, width, shared, kept, render);
      if Agree(l, right[n - 1], shared, render) then before + [l + Pick(right[n - 1], kept)] else before
  }

  /** The first `n` left rows, each against every right row. */
  function NestedLoop(left: seq<Row>, n: nat, leftWidth: nat, right: seq<Row>, width: nat, shared: Pairs, kept: seq<nat>,
                      render: Rendering): seq<Row>
    requires n <= |left| && Wide(left, leftWidth) && Wide(right, width)
    requires Within(shared, leftWidth, width) && Below(kept, width)
  {
    if n == 0 then []
    else
      NestedLoop(left, n - 1, leftWidth, right, width, shared, kept, render)
      + MatchesOf(left[n - 1], right, |right|, width, shared, kept, render)
  }

  /** The join as a nested loop: left rows in order, for each the agreeing right rows in order. */
  function Joined(left: ResultSet, right: ResultSet, render: Rendering): ResultSet
    requires Wide(left.rows, |left.columns|) && Wide(right.rows, |right.columns|)
  {
    var shared := Shared(left.columns, right.columns);
    var kept := Kept(|right.columns|, shared);
    ResultSet(left.columns + Pick(right.columns, kept),
              NestedLoop(left.rows, |left.rows|, |left.columns|, right.rows, |right.columns|, shared, kept, render))
  }

  // ----- keys -----

  /** The rendering of a value never holds the byte that ends each part of a key. */
  ghost predicate Separable(render: Rendering) {
    forall v :: 0xFF !in render(v)
  }

  function KeyOf(row: Row, positions: seq<nat>, render: Rendering): (key: Bytes)
    requires Below(positions, |row|)
    ensures key == [] || key[|key| - 1] == 0xFF
  {
    if positions == [] then []
    else
      var n := |positions| - 1;
      KeyOf(row, positions[..n], render) + render(row[positions[n]]) + [0xFF]
  }

  predicate Closed(a: Bytes) {
    a == [] || a[|a| - 1] == 0xFF
  }

  lemma CutNoLater(a: Bytes, b: Bytes, c: Bytes)
    requires 0xFF !in b && Closed(c) && c <= a + b
    ensures |c| <= |a|
  {
    forall i | |a| <= i < |a + b| ensures (a + b)[i] != 0xFF {
      assert (a + b)[i] == b[i - |a|];
    }
  }

  lemma LastPart(a: Bytes, b: Bytes, c: Bytes, d: Bytes)
    requires 0xFF !in b && 0xFF !in d && Closed(a) && Closed(c) && a + b + [0xFF] == c + d + [0xFF]
    ensures a == c && b == d
  {
    assert (a + b + [0xFF])[..|a + b|] == a + b && (c + d + [0xFF])[..|c + d|] == c + d;
    CutNoLater(a, b, c);
    CutNoLater(c, d, a);
    assert a == (a + b)[..|a|] && c == (c + d)[..|c|] && b == (a + b)[|a|..] && d == (c + d)[|c|..];
  }

  /** Position by position, the values render the same. */
  predicate RenderAlike(l: Row, ls: seq<nat>, r: Row, rs: seq<nat>, render: Rendering)
    requires |ls| == |rs| && Below(ls, |l|) && Below(rs, |r|)
  {
    forall i :: 0 <= i < |ls| ==> render(l[ls[i]]) == render(r[rs[i]])
  }

  lemma {:induction false} KeyStep(row: Row, positions: seq<nat>, render: Rendering)
    requires Separable(render) && Below(positions, |row|) && positions != []
    ensures var n := |positions| - 1;
            && Below(positions[..n], |row|)
            && KeyOf(row, positions, render) == KeyOf(row, positions[..n], render) + render(row[positions[n]]) + [0xFF]
            && 0xFF !in render(row[positions[n]])
  {
  }

  lemma {:induction false} AlikeStep(l: Row, ls: seq<nat>, r: Row, rs: seq<nat>, render: Rendering)
    requires |ls| == |rs| && Below(ls, |l|) && Below(rs, |r|) && ls != []
    ensures var n := |ls| - 1;
            && Below(ls[..n], |l|) && Below(rs[..n], |r|)
            && (RenderAlike(l, ls, r, rs, render) <==>
                  RenderAlike(l, ls[..n], r, rs[..n], render) && render(l[ls[n]]) == render(r[rs[n]]))
  {
    var n := |ls| - 1;
    assert forall i :: 0 <= i < n ==> ls[..n][i] == ls[i] && rs[..n][i] == rs[i];
  }

  /** Keys of rows are equal exactly when every part renders the same. */
  lemma {:induction false} KeysEqual(l: Row, ls: seq<nat>, r: Row, rs: seq<nat>, render: Rendering)
    requires Separable(render) && |ls| == |rs| && Below(ls, |l|) && Below(rs, |r|)
    ensures KeyOf(l, ls, render) == KeyOf(r, rs, render) <==> RenderAlike(l, ls, r, rs, render)
  {
    if ls != [] {
      hide KeyOf, RenderAlike, Separable, Below;
      var n := |ls| - 1;
      KeyStep(l, ls, render);
      KeyStep(r, rs, render);
      AlikeStep(l, ls, r, rs, render);
      KeysEqual(l, ls[..n], r, rs[..n], render);
      if KeyOf(l, ls, render) == KeyOf(r, rs, render) {
        LastPart(KeyOf(l, ls[..n], render), render(l[ls[n]]), KeyOf(r, rs[..n], render), render(r[rs[n]]));
      }
    }
  }

  function Lefts(shared: Pairs): (r: seq<nat>)
    ensures |r| == |shared| && forall i :: 0 <= i < |r| ==> r[i] == shared[i].0
  {
    seq(|shared|, i requires 0 <= i < |shared| => shared[i].0)
  }

  function Rights(shared: Pairs): (r: seq<nat>)
    ensures |r| == |shared| && forall i :: 0 <= i < |r| ==> r[i] == shared[i].1
  {
    seq(|shared|, i requires 0 <= i < |shared| => shared[i].1)
  }

  lemma {:induction false} KeysMeanAgreement(l: Row, r: Row, shared: Pairs, render: Rendering)
    requires Separable(render) && Within(shared, |l|, |r|)
    ensures KeyOf(l, Lefts(shared), render) == KeyOf(r, Rights(shared), render) <==> Agree(l, r, shared, render)
  {
    hide KeyOf;
    KeysEqual(l, Lefts(shared), r, Rights(shared), render);
    if KeyOf(l, Lefts(shared), render) == KeyOf(r, Rights(shared), render) {
      forall i | 0 <= i < |shared| ensures render(l[shared[i].0]) == render(r[shared[i].1]) {
        assert render(l[Lefts(shared)[i]]) == render(r[Rights(shared)[i]]);
      }
    }
  }

  // ----- the hash join -----

  /** The positions below `n` of the right rows under a key, in order. */
  function Bucket(right: seq<Row>, n: nat, width: nat, positions: seq<nat>, key: Bytes, render: Rendering): (r: seq<nat>)
    requires n <= |right| && Wide(right, width) && Below(positions, width)
    ensures Below(r, n)
  {
    if n == 0 then []
    else
      var before := Bucket(right, n - 1, width, positions, key, render);
      if KeyOf(right[n - 1], positions, render) == key then before + [n - 1] else before
  }

  function RowsAt(l: Row, matches: seq<nat>, right: seq<Row>, width: nat, kept: seq<nat>): seq<Row>
    requires Below(matches, |right|) && Wide(right, width) && Below(kept, width)
  {
    if matches == [] then []
    else
      var n := |matches| - 1;
      RowsAt(l, matches[..n], right, width, kept) + [l + Pick(right[matches[n]], kept)]
  }

  /** The bucket of a left row's key lists its matches. */
  lemma {:induction false} BucketIsMatches(l: Row, right: seq<Row>, n: nat, width: nat, shared: Pairs, kept: seq<nat>,
                                           render: Rendering)
    requires Separable(render)
    requires n <= |right| && Wide(right, width) && Within(shared, |l|, width) && Below(kept, width)
    ensures RowsAt(l, Bucket(right, n, width, Rights(shared), KeyOf(l, Lefts(shared), render), render), right, width, kept)
              == MatchesOf(l, right, n, width, shared, kept, render)
  {
    hide KeyOf, Agree, Separable, Pick;
    if n > 0 {
      BucketIsMatches(l, right, n - 1, width, shared, kept, render);
      KeysMeanAgreement(l, right[n - 1], shared, render);
      var before := Bucket(right, n - 1, width, Rights(shared), KeyOf(l, Lefts(shared), render), render);
      assert (before + [n - 1])[..|before|] == before;
    }
  }

  method BuildKey(row: Row, positions: seq<nat>, render: Rendering) returns (key: Bytes)
    requires Below(positions, |row|)
    ensures key == KeyOf(row, positions, render)
  {
    key := [];
    var i := 0;
    while i < |positions|
      invariant 0 <= i <= |positions| && key == KeyOf(row, positions[..i], render)
    {
      assert positions[..i + 1][..i] == positions[..i];
      key := key + render(row[positions[i]]) + [0xFF];
      i := i + 1;
    }
    assert positions[..i] == positions;
  }

  type Table = map<Bytes, seq<nat>>

  function BucketIn(table: Table, key: Bytes): seq<nat> {
    if key in table then table[key] else []
  }

  method BuildTable(right: seq<Row>, width: nat, positions: seq<nat>, render: Rendering) returns (table: Table)
    requires Wide(right, width) && Below(positions, width)
    ensures forall key :: BucketIn(table, key) == Bucket(right, |right|, width, positions, key, render)
  {
    hide KeyOf;
    table := map[];
    var idx := 0;
    while idx < |right|
      invariant 0 <= idx <= |right|
      invariant forall key :: BucketIn(table, key) == Bucket(right, idx, width, positions, key, render)
    {
      var key := BuildKey(right[idx], positions, render);
      table := table[key := BucketIn(table, key) + [idx]];
      idx := idx + 1;
    }
  }

  method AppendMatches(rows: seq<Row>, l: Row, matches: seq<nat>, right: seq<Row>, width: nat, kept: seq<nat>)
    returns (out: seq<Row>)
    requires Below(matches, |right|) && Wide(right, width) && Below(kept, width)
    ensures out == rows + RowsAt(l, matches, right, width, kept)
  {
    hide Pick;
    out := rows;
    var i := 0;
    while i < |matches|
      invariant 0 <= i <= |matches| && out == rows + RowsAt(l, matches[..i], right, width, kept)
    {
      assert matches[..i + 1][..i] == matches[..i];
      out := out + [l + Pick(right[matches[i]], kept)];
      i := i + 1;
    }
    assert matches[..i] == matches;
  }

  method FindShared(left: seq<string>, right: seq<string>) returns (shared: Pairs)
    ensures shared == Shared(left, right)
  {
    shared := [];
    var li := 0;
    while li < |left|
      invariant 0 <= li <= |left| && shared == Shared(left[..li], right)
    {
      assert left[..li + 1][..li] == left[..li];
      if Joinable(left[li]) {
        var p := Position(right, left[li]);
        if p.Some? {
          shared := shared + [(li, p.value)];
        }
      }
      li := li + 1;
    }
    assert left[..li] == left;
  }

  method KeepOthers(n: nat, shared: Pairs) returns (kept: seq<nat>)
    ensures kept == Kept(n, shared)
  {
    kept := [];
    var ri := 0;
    while ri < n
      invariant 0 <= ri <= n && kept == Kept(ri, shared)
    {
      if !Names(shared, ri) {
        kept := kept + [ri];
      }
      ri := ri + 1;
    }
  }

  method CrossJoin(left: ResultSet, right: ResultSet, ghost render: Rendering) returns (rs: ResultSet)
    requires Wide(left.rows, |left.columns|) && Wide(right.rows, |right.columns|)
    requires Shared(left.columns, right.columns) == []
    ensures rs == Joined(left, right, render)
  {
    hide Shared;
    ghost var width := |right.columns|;
    ghost var kept := Kept(width, []);
    KeepsAll(width);
    var rows := [];
    var i := 0;
    while i < |left.rows|
      invariant 0 <= i <= |left.rows|
      invariant rows == NestedLoop(left.rows, i, |left.columns|, right.rows, width, [], kept, render)
    {
      ghost var before := rows;
      var j := 0;
      while j < |right.rows|
        invariant 0 <= j <= |right.rows|
        invariant rows == before + MatchesOf(left.rows[i], right.rows, j, width, [], kept, render)
      {
        PickAll(right.rows[j]);
        rows := rows + [left.rows[i] + right.rows[j]];
        j := j + 1;
      }
      i := i + 1;
    }
    PickAll(right.columns);
    rs := ResultSet(left.columns + right.columns, rows);
  }

  lemma {:induction false} KeepsAll(n: nat)
    ensures |Kept(n, [])| == n && forall i :: 0 <= i < n ==> Kept(n, [])[i] == i
  {
    if n > 0 {
      KeepsAll(n - 1);
    }
  }

  lemma PickAll<T>(from: seq<T>)
    ensures Pick(from, Kept(|from|, [])) == from
  {
    KeepsAll(|from|);
  }

  /** The hash join gives the rows of the nested loop, in its order. */
  method ExecJoin(left: ResultSet, right: ResultSet, render: Rendering) returns (rs: ResultSet)
    requires Wide(left.rows, |left.columns|) && Wide(right.rows, |right.columns|)
    requires Separable(render)
    ensures rs == Joined(left, right, render)
  {
    hide KeyOf, Pick, Shared, Kept, Separable;
    var width := |right.columns|;
    var shared := FindShared(left.columns, right.columns);
    if shared == [] {
      rs := CrossJoin(left, right, render);
      return;
    }
    var kept := KeepOthers(width, shared);
    var table := BuildTable(right.rows, width, Rights(shared), render);
    var rows := [];
    var i := 0;
    while i < |left.rows|
      invariant 0 <= i <= |left.rows|
      invariant rows == NestedLoop(left.rows, i, |left.columns|, right.rows, width, shared, kept, render)
    {
      var l := left.rows[i];
      var key := BuildKey(l, Lefts(shared), render);
      BucketIsMatches(l, right.rows, |right.rows|, width, shared, kept, render);
      assert BucketIn(table, key) == Bucket(right.rows, |right.rows|, width, Rights(shared), key, render);
      if key in table {
        rows := AppendMatches(rows, l, table[key], right.rows, width, kept);
      }
      i := i + 1;
    }
    rs := ResultSet(left.columns + Pick(right.columns, kept), rows);
  }

  // ----- what the joined rows hold -----

  lemma {:induction false} KeptAscends(n: nat, shared: Pairs)
    ensures forall i, j :: 0 <= i < j < |Kept(n, shared)| ==> Kept(n, shared)[i] < Kept(n, shared)[j]
    ensures forall ri: nat :: ri in Kept(n, shared) <==> ri < n && !Names(shared, ri)
  {
    hide Names;
    if n > 0 {
      KeptAscends(n - 1, shared);
    }
  }

  lemma {:induction false} SharedPairs(left: seq<string>, right: seq<string>)
    ensures var s := Shared(left, right);
            && (forall i :: 0 <= i < |s| ==> left[s[i].0] == right[s[i].1])
            && (forall li: nat :: li < |left| && Joinable(left[li]) && left[li] in right ==>
                  (li, Position(right, left[li]).value) in s)
  {
    hide Joinable, Position;
    if left != [] {
      var n := |left| - 1;
      SharedPairs(left[..n], right);
      assert forall li :: 0 <= li < n ==> left[..n][li] == left[li];
    }
  }

  lemma {:induction false} FirstPosition(columns: seq<string>, name: string, p: nat)
    requires p < |columns| && columns[p] == name && forall i :: 0 <= i < p ==> columns[i] != name
    ensures Position(columns, name) == Some(p)
  {
  }

  /** The rendering tells the rows' values in the shared columns apart. */
  predicate Distinguishes(render: Rendering, l: Row, r: Row, shared: Pairs)
    requires Within(shared, |l|, |r|)
  {
    forall i :: 0 <= i < |shared| && render(l[shared[i].0]) == render(r[shared[i].1]) ==> l[shared[i].0] == r[shared[i].1]
  }

  /** A joined row shows the left row's columns, and every joinable column of the right row. */
  lemma {:induction false} JoinedRowShowsBoth(left: seq<string>, right: seq<string>, l: Row, r: Row, column: string,
                                              render: Rendering)
    requires |l| == |left| && |r| == |right|
    requires Distinguishes(render, l, r, Shared(left, right)) && Agree(l, r, Shared(left, right), render)
    ensures var kept := Kept(|right|, Shared(left, right));
            var joined := Record(left + Pick(right, kept), l + Pick(r, kept));
            && (column in left ==> Get(joined, column) == Get(Record(left, l), column))
            && (Joinable(column) && column in right ==> Get(joined, column) == Get(Record(right, r), column))
  {
    hide Joinable, Shared, Kept, Position;
    var shared := Shared(left, right);
    var kept := Kept(|right|, shared);
    var columns := left + Pick(right, kept);
    if column in left {
      FirstPosition(columns, column, Position(left, column).value);
      if Joinable(column) && column in right {
        LeftShows(left, right, l, r, column, render);
      }
    } else if Joinable(column) && column in right {
      RightKept(left, right, column);
    }
  }

  lemma {:induction false} LeftShows(left: seq<string>, right: seq<string>, l: Row, r: Row, column: string,
                                     render: Rendering)
    requires |l| == |left| && |r| == |right|
    requires Distinguishes(render, l, r, Shared(left, right)) && Agree(l, r, Shared(left, right), render)
    requires column in left && column in right && Joinable(column)
    ensures l[Position(left, column).value] == r[Position(right, column).value]
  {
    hide Joinable, Shared, Position;
    SharedPairs(left, right);
    var p := (Position(left, column).value, Position(right, column).value);
    var s := Shared(left, right);
    var i :| 0 <= i < |s| && s[i] == p;
    assert render(l[s[i].0]) == render(r[s[i].1]);
  }

  lemma {:induction false} NotShared(left: seq<string>, right: seq<string>, column: string, ri: nat)
    requires column !in left && ri < |right| && right[ri] == column
    ensures !Names(Shared(left, right), ri)
  {
    hide Joinable, Shared, Position;
    var shared := Shared(left, right);
    SharedPairs(left, right);
    forall i | 0 <= i < |shared| ensures shared[i].1 != ri {
      var p := shared[i];
      assert left[p.0] == right[p.1] && left[p.0] in left;
    }
  }

  lemma {:induction false} RightKept(left: seq<string>, right: seq<string>, column: string)
    requires column !in left && column in right
    ensures var kept := Kept(|right|, Shared(left, right));
            var p := Position(left + Pick(right, kept), column);
            p.Some? && p.value >= |left| && kept[p.value - |left|] == Position(right, column).value
  {
    hide Joinable, Shared, Position, Kept, Names;
    var shared := Shared(left, right);
    var kept := Kept(|right|, shared);
    var ri := Position(right, column).value;
    SharedPairs(left, right);
    KeptAscends(|right|, shared);
    NotShared(left, right, column, ri);
    assert ri in kept;
    var k :| 0 <= k < |kept| && kept[k] == ri;
    FirstPosition(left + Pick(right, kept), column, |left| + k);
  }
}
