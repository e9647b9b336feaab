/** What a join returns, in terms of column names and of pairs of rows. */
module JoinLaws {
  import opened Bytes
  import opened Wrappers
  import opened Values
  import opened Expressions
  import opened HashJoin

  // ----- names -----

  /** A name with a dot in it that does not start with two underscores. */
  predicate OfVariable(name: string) {
    && (exists i :: 0 <= i < |name| && name[i] == '.')
    && !(|name| >= 2 && name[0] == '_' && name[1] == '_')
  }

  lemma JoinableNames(name: string)
    ensures Joinable(name) <==> OfVariable(name)
  {
    if |name| >= 2 && name[0] == '_' && name[1] == '_' {
      assert "__" <= name;
    }
    if "__" <= name {
      assert name[0] == "__"[0] && name[1] == "__"[1];
    }
  }

  /** The rows render the same under every variable's name that both have; a repeated right name stands for its first column. */
  ghost predicate AgreeByName(left: seq<string>, l: Row, right: seq<string>, r: Row, render: Rendering)
    requires |l| == |left| && |r| == |right|
  {
    forall i :: 0 <= i < |left| && OfVariable(left[i]) && left[i] in right ==>
      var v := Get(Record(right, r), left[i]); v.Some? && render(l[i]) == render(v.value)
  }

  /** The right column is joined on: it is the first of a variable's name that the left side has too. */
  ghost predicate JoinedOn(left: seq<string>, right: seq<string>, ri: nat)
    requires ri < |right|
  {
    OfVariable(right[ri]) && right[ri] in left && right[ri] !in right[..ri]
  }

  lemma PositionFirst(columns: seq<string>, i: nat)
    requires i < |columns|
    ensures Position(columns, columns[i]) == Some(i) <==> columns[i] !in columns[..i]
  {
    var p := Position(columns, columns[i]).value;
    assert p < i ==> columns[p] in columns[..i];
    if columns[i] in columns[..i] {
      var k :| 0 <= k < i && columns[..i][k] == columns[i];
      assert columns[k] == columns[i];
    }
  }

  lemma SharedStep(left: seq<string>, right: seq<string>, p: (nat, nat))
    requires left != []
    ensures var n := |left| - 1;
            p in Shared(left, right) <==>
              p in Shared(left[..n], right) || (p.0 == n && Joinable(left[n]) && Position(right, left[n]) == Some(p.1))
  {
    hide Joinable, Position;
  }

  lemma {:induction false} SharedExactly(left: seq<string>, right: seq<string>, p: (nat, nat))
    ensures p in Shared(left, right) <==>
              p.0 < |left| && OfVariable(left[p.0]) && Position(right, left[p.0]) == Some(p.1)
  {
    hide OfVariable, Joinable, Position, Shared;
    if left == [] {
      NothingShared(right);
    } else {
      var n := |left| - 1;
      SharedStep(left, right, p);
      SharedExactly(left[..n], right, p);
      JoinableNames(left[n]);
      assert p.0 < n ==> left[..n][p.0] == left[p.0];
    }
  }

  lemma NothingShared(right: seq<string>)
    ensures Shared([], right) == []
  {
  }

  lemma AgreementByName(left: seq<string>, l: Row, right: seq<string>, r: Row, render: Rendering)
    requires |l| == |left| && |r| == |right|
    ensures Agree(l, r, Shared(left, right), render) <==> AgreeByName(left, l, right, r, render)
  {
    hide OfVariable, Shared;
    var s := Shared(left, right);
    if Agree(l, r, s, render) {
      forall i | 0 <= i < |left| && OfVariable(left[i]) && left[i] in right
        ensures var v := Get(Record(right, r), left[i]); v.Some? && render(l[i]) == render(v.value)
      {
        SharedExactly(left, right, (i, Position(right, left[i]).value));
        var k :| 0 <= k < |s| && s[k] == (i, Position(right, left[i]).value);
      }
    }
    if AgreeByName(left, l, right, r, render) {
      forall k | 0 <= k < |s| ensures render(l[s[k].0]) == render(r[s[k].1]) {
        assert s[k] in s;
        SharedExactly(left, right, s[k]);
      }
    }
  }

  lemma SharedNames(left: seq<string>, right: seq<string>, ri: nat)
    requires ri < |right|
    ensures Names(Shared(left, right), ri) <==> JoinedOn(left, right, ri)
  {
    hide OfVariable, Shared, Position;
    var s := Shared(left, right);
    PositionFirst(right, ri);
    if Names(s, ri) {
      var k :| 0 <= k < |s| && s[k].1 == ri;
      assert s[k] in s;
      SharedExactly(left, right, s[k]);
    }
    if JoinedOn(left, right, ri) {
      var li :| 0 <= li < |left| && left[li] == right[ri];
      SharedExactly(left, right, (li, ri));
      var k :| 0 <= k < |s| && s[k] == (li, ri);
    }
  }

  // ----- pairs of rows -----

  /** One pair comes before another: by the left row, then by the right one. */
  predicate PairBefore(a: (nat, nat), b: (nat, nat)) {
    a.0 < b.0 || (a.0 == b.0 && a.1 < b.1)
  }

  ghost predicate InOrder(pairs: seq<(nat, nat)>) {
    forall i, j :: 0 <= i < j < |pairs| ==> PairBefore(pairs[i], pairs[j])
  }

  ghost predicate Inside(pairs: seq<(nat, nat)>, m: nat, n: nat) {
    forall i :: 0 <= i < |pairs| ==> pairs[i].0 < m && pairs[i].1 < n
  }

  ghost function RowsOfPairs(left: seq<Row>, right: seq<Row>, width: nat, kept: seq<nat>, pairs: seq<(nat, nat)>): (r: seq<Row>)
    requires Wide(right, width) && HashJoin.Below(kept, width) && Inside(pairs, |left|, |right|)
    ensures |r| == |pairs|
    ensures forall i :: 0 <= i < |r| ==> r[i] == left[pairs[i].0] + Pick(right[pairs[i].1], kept)
  {
    seq(|pairs|, i requires 0 <= i < |pairs| => left[pairs[i].0] + Pick(right[pairs[i].1], kept))
  }

  lemma {:induction false} MatchesMeaning(left: seq<Row>, a: nat, leftWidth: nat, right: seq<Row>, n: nat, width: nat,
                                          shared: Pairs, kept: seq<nat>, render: Rendering) returns (pairs: seq<(nat, nat)>)
    requires a < |left| && Wide(left, leftWidth) && n <= |right| && Wide(right, width)
    requires Within(shared, leftWidth, width) && HashJoin.Below(kept, width)
    ensures Inside(pairs, |left|, |right|) && InOrder(pairs)
    ensures forall i :: 0 <= i < |pairs| ==> pairs[i].0 == a && pairs[i].1 < n
    ensures forall b :: 0 <= b < n ==> ((a, b) in pairs <==> Agree(left[a], right[b], shared, render))
    ensures MatchesOf(left[a], right, n, width, shared, kept, render) == RowsOfPairs(left, right, width, kept, pairs)
  {
    hide Agree, Pick;
    if n == 0 {
      pairs := [];
    } else {
      var before := MatchesMeaning(left, a, leftWidth, right, n - 1, width, shared, kept, render);
      if Agree(left[a], right[n - 1], shared, render) {
        pairs := before + [(a, n - 1)];
        assert RowsOfPairs(left, right, width, kept, pairs) ==
               RowsOfPairs(left, right, width, kept, before) + [left[a] + Pick(right[n - 1], kept)];
      } else {
        pairs := before;
        assert (a, n - 1) !in before;
      }
    }
  }

  lemma RowsOfBoth(left: seq<Row>, right: seq<Row>, width: nat, kept: seq<nat>, before: seq<(nat, nat)>, last: seq<(nat, nat)>)
    requires Wide(right, width) && HashJoin.Below(kept, width)
    requires Inside(before, |left|, |right|) && Inside(last, |left|, |right|)
    ensures Inside(before + last, |left|, |right|)
    ensures RowsOfPairs(left, right, width, kept, before + last) ==
              RowsOfPairs(left, right, width, kept, before) + RowsOfPairs(left, right, width, kept, last)
  {
    hide Pick;
  }

  lemma OrderOfBoth(before: seq<(nat, nat)>, last: seq<(nat, nat)>, n: nat)
    requires InOrder(before) && InOrder(last)
    requires (forall i :: 0 <= i < |before| ==> before[i].0 < n) && forall i :: 0 <= i < |last| ==> last[i].0 == n
    ensures InOrder(before + last)
  {
  }

  lemma NestedStep(left: seq<Row>, n: nat, leftWidth: nat, right: seq<Row>, width: nat, shared: Pairs, kept: seq<nat>,
                   render: Rendering)
    requires 0 < n <= |left| && Wide(left, leftWidth) && Wide(right, width)
    requires Within(shared, leftWidth, width) && HashJoin.Below(kept, width)
    ensures |left[n - 1]| == leftWidth
    ensures NestedLoop(left, n, leftWidth, right, width, shared, kept, render) ==
              NestedLoop(left, n - 1, leftWidth, right, width, shared, kept, render)
              + MatchesOf(left[n - 1], right, |right|, width, shared, kept, render)
  {
    hide MatchesOf;
  }

  /** The pairs are those of the first `n` left rows with the right rows they agree with. */
  ghost predicate Agreeing(left: seq<Row>, n: nat, leftWidth: nat, right: seq<Row>, width: nat, shared: Pairs,
                           render: Rendering, pairs: seq<(nat, nat)>)
    requires n <= |left| && Wide(left, leftWidth) && Wide(right, width) && Within(shared, leftWidth, width)
  {
    && (forall i :: 0 <= i < |pairs| ==> pairs[i].0 < n)
    && forall a, b :: 0 <= a < n && 0 <= b < |right| ==> ((a, b) in pairs <==> Agree(left[a], right[b], shared, render))
  }

  lemma AgreeingStep(left: seq<Row>, n: nat, leftWidth: nat, right: seq<Row>, width: nat, shared: Pairs, render: Rendering,
                     before: seq<(nat, nat)>, last: seq<(nat, nat)>)
    requires n < |left| && Wide(left, leftWidth) && Wide(right, width) && Within(shared, leftWidth, width)
    requires Agreeing(left, n, leftWidth, right, width, shared, render, before)
    requires forall i :: 0 <= i < |last| ==> last[i].0 == n
    requires forall b :: 0 <= b < |right| ==> ((n, b) in last <==> Agree(left[n], right[b], shared, render))
    ensures Agreeing(left, n + 1, leftWidth, right, width, shared, render, before + last)
    ensures forall i :: 0 <= i < |before| ==> before[i].0 < n
  {
    hide Agree;
    var pairs := before + last;
    forall a, b | 0 <= a < n + 1 && 0 <= b < |right|
      ensures (a, b) in pairs <==> Agree(left[a], right[b], shared, render)
    {
      assert (a, b) in pairs <==> (a, b) in before || (a, b) in last;
    }
  }

  lemma NoPairs(left: seq<Row>, leftWidth: nat, right: seq<Row>, width: nat, shared: Pairs, kept: seq<nat>, render: Rendering)
    requires Wide(left, leftWidth) && Wide(right, width)
    requires Within(shared, leftWidth, width) && HashJoin.Below(kept, width)
    ensures Inside([], |left|, |right|) && InOrder([])
    ensures Agreeing(left, 0, leftWidth, right, width, shared, render, [])
    ensures NestedLoop(left, 0, leftWidth, right, width, shared, kept, render) == RowsOfPairs(left, right, width, kept, [])
  {
  }

  lemma {:induction false} NestedMeaning(left: seq<Row>, n: nat, leftWidth: nat, right: seq<Row>, width: nat, shared: Pairs,
                                         kept: seq<nat>, render: Rendering) returns (pairs: seq<(nat, nat)>)
    requires n <= |left| && Wide(left, leftWidth) && Wide(right, width)
    requires Within(shared, leftWidth, width) && HashJoin.Below(kept, width)
    ensures Inside(pairs, |left|, |right|) && InOrder(pairs)
    ensures Agreeing(left, n, leftWidth, right, width, shared, render, pairs)
    ensures NestedLoop(left, n, leftWidth, right, width, shared, kept, render) == RowsOfPairs(left, right, width, kept, pairs)
  {
    hide *;
    if n == 0 {
      pairs := [];
      NoPairs(left, leftWidth, right, width, shared, kept, render);
    } else {
      var before := NestedMeaning(left, n - 1, leftWidth, right, width, shared, kept, render);
      var last := MatchesMeaning(left, n - 1, leftWidth, right, |right|, width, shared, kept, render);
      pairs := before + last;
      NestedStep(left, n, leftWidth, right, width, shared, kept, render);
      RowsOfBoth(left, right, width, kept, before, last);
      AgreeingStep(left, n - 1, leftWidth, right, width, shared, render, before, last);
      OrderOfBoth(before, last, n - 1);
    }
  }

  /**
   A join gives a row for each pair of a left and a right row that agree by name,
   and for no other pair, by left rows and then by right rows. Its columns are the
   left columns and the right columns that are not joined on, in order.
   */
  lemma {:induction false} JoinMeaning(left: ResultSet, right: ResultSet, render: Rendering)
    returns (pairs: seq<(nat, nat)>, kept: seq<nat>)
    requires Wide(left.rows, |left.columns|) && Wide(right.rows, |right.columns|)
    ensures Inside(pairs, |left.rows|, |right.rows|) && InOrder(pairs)
    ensures forall a, b :: 0 <= a < |left.rows| && 0 <= b < |right.rows| ==>
              ((a, b) in pairs <==> AgreeByName(left.columns, left.rows[a], right.columns, right.rows[b], render))
    ensures HashJoin.Below(kept, |right.columns|)
    ensures forall i, j :: 0 <= i < j < |kept| ==> kept[i] < kept[j]
    ensures forall ri :: 0 <= ri < |right.columns| ==> (ri in kept <==> !JoinedOn(left.columns, right.columns, ri))
    ensures Joined(left, right, render) ==
              ResultSet(left.columns + Pick(right.columns, kept),
                        RowsOfPairs(left.rows, right.rows, |right.columns|, kept, pairs))
  {
    hide Agree, Shared, Kept, NestedLoop, AgreeByName, JoinedOn, Names;
    var shared := Shared(left.columns, right.columns);
    kept := Kept(|right.columns|, shared);
    pairs := NestedMeaning(left.rows, |left.rows|, |left.columns|, right.rows, |right.columns|, shared, kept, render);
    KeptAscends(|right.columns|, shared);
    forall a, b | 0 <= a < |left.rows| && 0 <= b < |right.rows|
      ensures (a, b) in pairs <==> AgreeByName(left.columns, left.rows[a], right.columns, right.rows[b], render)
    {
      AgreementByName(left.columns, left.rows[a], right.columns, right.rows[b], render);
    }
    forall ri | 0 <= ri < |right.columns| ensures ri in kept <==> !JoinedOn(left.columns, right.columns, ri) {
      SharedNames(left.columns, right.columns, ri);
    }
  }

  /** Where no left name repeats, agreeing by name is rendering the same under every variable's name both sides have. */
  lemma AgreeBySets(left: seq<string>, l: Row, right: seq<string>, r: Row, render: Rendering)
    requires |l| == |left| && |r| == |right| && forall i, j :: 0 <= i < j < |left| ==> left[i] != left[j]
    ensures AgreeByName(left, l, right, r, render) <==>
              forall c :: c in left && c in right && OfVariable(c) ==>
                var (x, y) := (Get(Record(left, l), c), Get(Record(right, r), c));
                x.Some? && y.Some? && render(x.value) == render(y.value)
  {
    hide OfVariable, Position;
    forall i | 0 <= i < |left| ensures Get(Record(left, l), left[i]) == Some(l[i]) {
      var p := Position(left, left[i]).value;
      assert left[p] == left[i];
    }
  }
}
