/**
 What the operators of a plan return, row by row: filters, windows, projections
 and sorts.
 */
module PlanLaws {
  import opened Bytes
  import opened Wrappers
  import opened Values
  import opened Syntax
  import opened Expressions
  import opened ExpressionLaws
  import opened Plans

  // ----- filter -----

  /** The predicate is true on the i-th row. */
  ghost predicate Accepted(rs: ResultSet, i: nat, e: Expression, rt: Runtime)
    requires RowsOk(rs) && i < |rs.rows|
  {
    Evaluate(e, RowOf(rs, i), rt) == Success(Bool(true))
  }

  ghost predicate Ascending(p: seq<nat>) {
    forall i, j :: 0 <= i < j < |p| ==> p[i] < p[j]
  }

  lemma {:induction false} FilterRowsMeaning(rs: ResultSet, n: nat, e: Expression, rt: Runtime) returns (p: seq<nat>)
    requires RowsOk(rs) && n <= |rs.rows| && FilterRows(rs.columns, rs.rows[..n], e, rt).Success?
    ensures Ascending(p) && Indices(p, n)
    ensures forall i :: 0 <= i < n ==> (i in p <==> Accepted(rs, i, e, rt))
    ensures FilterRows(rs.columns, rs.rows[..n], e, rt).value == Permute(rs.rows[..n], p)
  {
    hide Evaluate;
    if n == 0 {
      p := [];
    } else {
      assert rs.rows[..n][..n - 1] == rs.rows[..n - 1];
      p := FilterRowsMeaning(rs, n - 1, e, rt);
      assert Permute(rs.rows[..n], p) == Permute(rs.rows[..n - 1], p);
      if Accepted(rs, n - 1, e, rt) {
        assert Permute(rs.rows[..n], p + [n - 1]) == Permute(rs.rows[..n], p) + [rs.rows[n - 1]];
        p := p + [n - 1];
      }
    }
  }

  lemma {:induction false} FilterFails(rs: ResultSet, n: nat, e: Expression, rt: Runtime)
    requires RowsOk(rs) && n <= |rs.rows|
    ensures var r := FilterRows(rs.columns, rs.rows[..n], e, rt);
            && (r.Success? <==> forall i :: 0 <= i < n ==> Evaluate(e, RowOf(rs, i), rt).Success?)
            && (r.Failure? ==> exists i :: 0 <= i < n && Evaluate(e, RowOf(rs, i), rt) == Failure(r.error)
                                           && forall j :: 0 <= j < i ==> Evaluate(e, RowOf(rs, j), rt).Success?)
  {
    hide Evaluate;
    if n > 0 {
      assert rs.rows[..n][..n - 1] == rs.rows[..n - 1];
      FilterFails(rs, n - 1, e, rt);
      assert rs.rows[..n][n - 1] == rs.rows[n - 1] && RowOf(rs, n - 1) == Record(rs.columns, rs.rows[n - 1]);
    }
  }

  /**
   A filter keeps exactly the rows on which its predicate is true, in their order,
   where it has a value on every row, and else fails with the first row's error.
   */
  lemma FilterMeaning(rs: ResultSet, e: Expression, rt: Runtime) returns (p: seq<nat>)
    requires RowsOk(rs)
    ensures Ascending(p) && Indices(p, |rs.rows|)
    ensures var r := RunFilter(rs, e, rt);
            && (r.Success? <==> forall i :: 0 <= i < |rs.rows| ==> Evaluate(e, RowOf(rs, i), rt).Success?)
            && (r.Success? ==>
                  && r.value == ResultSet(rs.columns, Permute(rs.rows, p))
                  && forall i :: 0 <= i < |rs.rows| ==> (i in p <==> Accepted(rs, i, e, rt)))
            && (r.Failure? ==>
                  exists i :: 0 <= i < |rs.rows| && r.error.Evaluation? && Evaluate(e, RowOf(rs, i), rt) == Failure(r.error.error)
                              && forall j :: 0 <= j < i ==> Evaluate(e, RowOf(rs, j), rt).Success?)
  {
    hide Evaluate, Accepted, FilterRows;
    assert rs.rows[..|rs.rows|] == rs.rows;
    FilterFails(rs, |rs.rows|, e, rt);
    p := [];
    if RunFilter(rs, e, rt).Success? {
      p := FilterRowsMeaning(rs, |rs.rows|, e, rt);
    }
  }

  // ----- limit -----

  /** A window has as many rows as are left after the offset, at most the count, and they are the rows from the offset on. */
  lemma LimitMeaning(rs: ResultSet, count: Option<nat>, offset: Option<nat>)
    requires RowsOk(rs)
    ensures var out := RunLimit(rs, count, offset);
            var skip := if offset.Some? then offset.value else 0;
            var left := if skip <= |rs.rows| then |rs.rows| - skip else 0;
            && out.columns == rs.columns
            && |out.rows| == (if count.Some? && count.value < left then count.value else left)
            && forall i :: 0 <= i < |out.rows| ==> out.rows[i] == rs.rows[skip + i]
  {
  }

  // ----- projection -----

  lemma {:induction false} ProjectRowsMeaning(rs: ResultSet, n: nat, es: seq<Expression>, carried: seq<string>, rt: Runtime)
    requires RowsOk(rs) && n <= |rs.rows|
    ensures var r := ProjectRows(rs.columns, rs.rows[..n], es, carried, rt);
            && (r.Success? <==> forall i :: 0 <= i < n ==> EvaluateAll(es, RowOf(rs, i), rt).Success?)
            && (r.Success? ==> forall i :: 0 <= i < n ==>
                  r.value[i] == EvaluateAll(es, RowOf(rs, i), rt).value + CarriedValues(RowOf(rs, i), carried))
  {
    hide EvaluateAll, CarriedValues;
    if n > 0 {
      assert rs.rows[..n][..n - 1] == rs.rows[..n - 1];
      ProjectRowsMeaning(rs, n - 1, es, carried, rt);
      assert RowOf(rs, n - 1) == Record(rs.columns, rs.rows[..n][n - 1]);
    }
  }

  /** Carried along are exactly the internal columns that are not projected. */
  lemma {:induction false} CarriedMeaning(columns: seq<string>, names: seq<string>)
    ensures forall c :: c in Carried(columns, names) <==>
              c in columns && |c| >= 2 && c[0] == '_' && c[1] == '_' && c !in names
  {
    if columns != [] {
      CarriedMeaning(columns[1..], names);
      assert forall c :: c in columns <==> c == columns[0] || c in columns[1..];
    }
  }

  /** A column for each expression, under its alias where it has one, then the internal columns that are not projected. */
  ghost predicate ProjectedColumns(rs: ResultSet, es: seq<Expression>, aliases: seq<Option<string>>, lib: Library,
                                   columns: seq<string>)
  {
    && |columns| >= |es|
    && (forall j :: 0 <= j < |es| ==>
          columns[j] == if j < |aliases| && aliases[j].Some? then aliases[j].value else lib.columnName(es[j], j))
    && (forall c :: c in columns[|es|..] <==>
          c in rs.columns && |c| >= 2 && c[0] == '_' && c[1] == '_' && c !in columns[..|es|])
  }

  /** The values of the expressions on the input row, then what the input row has in the carried columns. */
  ghost predicate ProjectedValues(r: Record, es: seq<Expression>, columns: seq<string>, values: seq<Value>, rt: Runtime)
    requires RecordOk(r) && |es| <= |columns|
  {
    && |values| == |columns|
    && (forall j :: 0 <= j < |es| ==> Evaluate(es[j], r, rt) == Success(values[j]))
    && (forall j :: |es| <= j < |columns| ==> Get(r, columns[j]) == Some(values[j]))
  }

  lemma {:induction false} ColumnsProjected(rs: ResultSet, es: seq<Expression>, aliases: seq<Option<string>>, lib: Library)
    ensures var names := NamesFor(es, aliases, lib);
            var columns := names + Carried(rs.columns, names);
            && ProjectedColumns(rs, es, aliases, lib, columns)
            && columns[|es|..] == Carried(rs.columns, names)
  {
    hide Carried;
    var names := NamesFor(es, aliases, lib);
    var columns := names + Carried(rs.columns, names);
    CarriedMeaning(rs.columns, names);
    assert columns[..|es|] == names && columns[|es|..] == Carried(rs.columns, names);
  }

  lemma {:induction false} RowProjected(r: Record, es: seq<Expression>, names: seq<string>, carried: seq<string>, rt: Runtime)
    requires RecordOk(r) && EvaluateAll(es, r, rt).Success? && |names| == |es|
    requires forall c :: c in carried ==> c in r.columns
    ensures ProjectedValues(r, es, names + carried, EvaluateAll(es, r, rt).value + CarriedValues(r, carried), rt)
  {
    hide Evaluate, EvaluateAll, Position;
    ItemsMeaning(es, r, rt);
    forall j | 0 <= j < |carried| ensures Get(r, carried[j]).Some? {
      assert carried[j] in carried;
    }
  }

  /**
   A projection without aggregates has the projected columns and, for each input
   row, a row of projected values. It fails where an expression fails on some row.
   */
  lemma {:induction false} ProjectMeaning(rs: ResultSet, es: seq<Expression>, aliases: seq<Option<string>>, lib: Library)
    requires RowsOk(rs) && rs.columns != [] && forall i :: 0 <= i < |es| ==> !ContainsAggregate(es[i])
    ensures var r := RunProject(rs, es, aliases, lib);
            && (r.Success? <==> forall i :: 0 <= i < |rs.rows| ==> EvaluateAll(es, RowOf(rs, i), lib.rt).Success?)
            && (r.Success? ==>
                  && ProjectedColumns(rs, es, aliases, lib, r.value.columns)
                  && |r.value.rows| == |rs.rows|
                  && forall i :: 0 <= i < |rs.rows| ==>
                       ProjectedValues(RowOf(rs, i), es, r.value.columns, r.value.rows[i], lib.rt))
  {
    hide Evaluate, EvaluateAll, ContainsAggregate, ProjectRows, Carried, NamesFor, CarriedValues, ProjectedColumns, ProjectedValues;
    var names := NamesFor(es, aliases, lib);
    var carried := Carried(rs.columns, names);
    assert rs.rows[..|rs.rows|] == rs.rows;
    ProjectRowsMeaning(rs, |rs.rows|, es, carried, lib.rt);
    ColumnsProjected(rs, es, aliases, lib);
    NamesSize(es, aliases, lib);
    var r := RunProject(rs, es, aliases, lib);
    if r.Success? {
      assert r.value.columns == names + carried;
      CarriedInside(rs.columns, names);
      forall i | 0 <= i < |rs.rows|
        ensures ProjectedValues(RowOf(rs, i), es, r.value.columns, r.value.rows[i], lib.rt)
      {
        RowProjected(RowOf(rs, i), es, names, carried, lib.rt);
      }
    }
  }

  lemma NamesSize(es: seq<Expression>, aliases: seq<Option<string>>, lib: Library)
    ensures |NamesFor(es, aliases, lib)| == |es|
  {
  }

  lemma CarriedInside(columns: seq<string>, names: seq<string>)
    ensures forall c :: c in Carried(columns, names) ==> c in columns
  {
    hide Carried;
    CarriedMeaning(columns, names);
  }

  /** An aggregate anywhere in the list takes the projection out of this model; names and literals do not. */
  lemma AggregatesApart(rs: ResultSet, es: seq<Expression>, aliases: seq<Option<string>>, lib: Library, e: Expression)
    requires RowsOk(rs)
    ensures e in es && e.Aggregate? ==> RunProject(rs, es, aliases, lib) == Failure(Evaluation(NotImplemented))
    ensures e.Lit? || e.Identifier? || e.PropertyAccess? ==> !ContainsAggregate(e)
  {
  }

  /** A projection of nothing at all evaluates its expressions once, on the empty row. */
  lemma {:induction false} ProjectNothing(es: seq<Expression>, aliases: seq<Option<string>>, lib: Library)
    requires forall i :: 0 <= i < |es| ==> !ContainsAggregate(es[i])
    ensures var (r, vs) := (RunProject(ResultSet([], []), es, aliases, lib), EvaluateAll(es, Record([], []), lib.rt));
            && (r.Success? <==> vs.Success?)
            && (r.Success? ==> r.value.rows == [vs.value])
  {
    hide EvaluateAll, ContainsAggregate, NamesFor;
    var one: seq<seq<Value>> := [[]];
    assert one[..0] == [];
    var carried := Carried([], NamesFor(es, aliases, lib));
    assert carried == [] && CarriedValues(Record([], []), carried) == [];
    assert ProjectRows([], one[..0], es, carried, lib.rt) == Success([]);
    assert ProjectRows([], one, es, carried, lib.rt).Success? <==> EvaluateAll(es, Record([], one[0]), lib.rt).Success?;
    if EvaluateAll(es, Record([], []), lib.rt).Success? {
      var vs := EvaluateAll(es, Record([], []), lib.rt).value;
      assert vs + [] == vs;
    }
  }

  // ----- sort -----

  /** One of the two is null, or they are of one type with an order, and neither is a NaN. */
  predicate SameKind(x: Value, y: Value) {
    || x.Null? || y.Null?
    || (x.Integer? && y.Integer?) || (x.Str? && y.Str?) || (x.Bool? && y.Bool?)
    || (x.Float? && y.Float? && !IsNaN(x.bits) && !IsNaN(y.bits))
  }

  /** Nulls first, then numbers by size, strings by their characters, and false before true. */
  ghost predicate SortsBefore(x: Value, y: Value) {
    if x.Null? || y.Null? then x.Null? && !y.Null?
    else if x.Integer? && y.Integer? then x.i < y.i
    else if x.Float? && y.Float? then FloatNumber(x.bits) < FloatNumber(y.bits)
    else if x.Str? && y.Str? then StringBefore(x.s, y.s)
    else x.Bool? && y.Bool? && !x.b && y.b
  }

  lemma ValuesCompare(x: Value, y: Value, rt: Runtime)
    requires SameKind(x, y)
    ensures CompareValues(x, y, rt).Below? <==> SortsBefore(x, y)
    ensures CompareValues(x, y, rt).Above? <==> SortsBefore(y, x)
  {
    hide FloatNumber, FloatRank, StringBefore, CompareStrings;
    if x.Str? && y.Str? {
      StringOrder(x.s, y.s);
    } else if x.Float? && y.Float? {
      FloatsAreNumbers(x.bits, y.bits);
      FloatsAreNumbers(y.bits, x.bits);
      ZeroRanks(x.bits, y.bits);
    }
  }

  /** The value of the k-th sort key on a row. */
  ghost predicate KeysHave(r: Record, keys: seq<SortKey>, vs: seq<Value>, rt: Runtime)
    requires RecordOk(r)
  {
    |vs| == |keys| && forall k :: 0 <= k < |keys| ==> Evaluate(keys[k].e, r, rt) == Success(vs[k])
  }

  ghost predicate Comparable(xs: seq<Value>, ys: seq<Value>) {
    |xs| == |ys| && forall k :: 0 <= k < |xs| ==> SameKind(xs[k], ys[k])
  }

  ghost predicate KeyBefore(key: SortKey, x: Value, y: Value) {
    if key.descending then SortsBefore(y, x) else SortsBefore(x, y)
  }

  /** The first key on which the rows differ decides, in its direction. */
  ghost predicate RowBefore(xs: seq<Value>, ys: seq<Value>, keys: seq<SortKey>)
    requires |xs| == |ys| == |keys|
  {
    exists k :: 0 <= k < |keys| && KeyBefore(keys[k], xs[k], ys[k])
                && forall j :: 0 <= j < k ==> !SortsBefore(xs[j], ys[j]) && !SortsBefore(ys[j], xs[j])
  }

  lemma RowBeforeStep(xs: seq<Value>, ys: seq<Value>, keys: seq<SortKey>)
    requires |xs| == |ys| == |keys| && keys != []
    ensures RowBefore(xs, ys, keys) <==>
              || KeyBefore(keys[0], xs[0], ys[0])
              || (!SortsBefore(xs[0], ys[0]) && !SortsBefore(ys[0], xs[0]) && RowBefore(xs[1..], ys[1..], keys[1..]))
  {
    hide SortsBefore;
    if KeyBefore(keys[0], xs[0], ys[0]) {
      assert RowBefore(xs, ys, keys);
    }
    if !SortsBefore(xs[0], ys[0]) && !SortsBefore(ys[0], xs[0]) && RowBefore(xs[1..], ys[1..], keys[1..]) {
      var k :| 0 <= k < |keys| - 1 && KeyBefore(keys[1..][k], xs[1..][k], ys[1..][k])
               && forall j :: 0 <= j < k ==> !SortsBefore(xs[1..][j], ys[1..][j]) && !SortsBefore(ys[1..][j], xs[1..][j]);
      forall j | 0 <= j < k + 1 ensures !SortsBefore(xs[j], ys[j]) && !SortsBefore(ys[j], xs[j]) {
        assert j > 0 ==> xs[1..][j - 1] == xs[j] && ys[1..][j - 1] == ys[j];
      }
      assert KeyBefore(keys[k + 1], xs[k + 1], ys[k + 1]);
    }
    if RowBefore(xs, ys, keys) && !KeyBefore(keys[0], xs[0], ys[0]) {
      var k :| 0 <= k < |keys| && KeyBefore(keys[k], xs[k], ys[k])
               && forall j :: 0 <= j < k ==> !SortsBefore(xs[j], ys[j]) && !SortsBefore(ys[j], xs[j]);
      assert KeyBefore(keys[1..][k - 1], xs[1..][k - 1], ys[1..][k - 1]);
    }
  }

  /** Rows compare by the first key on which they differ, in its direction. */
  lemma {:induction false} RowsCompare(a: Record, b: Record, keys: seq<SortKey>, xs: seq<Value>, ys: seq<Value>, rt: Runtime)
    requires RecordOk(a) && RecordOk(b) && KeysHave(a, keys, xs, rt) && KeysHave(b, keys, ys, rt) && Comparable(xs, ys)
    ensures CompareRows(a, b, keys, rt).Success?
    ensures CompareRows(a, b, keys, rt).value.Below? <==> RowBefore(xs, ys, keys)
    ensures CompareRows(a, b, keys, rt).value.Above? <==> RowBefore(ys, xs, keys)
    decreases |keys|
  {
    hide Evaluate, SameKind, SortsBefore, CompareValues;
    if keys != [] {
      ValuesCompare(xs[0], ys[0], rt);
      RowsCompare(a, b, keys[1..], xs[1..], ys[1..], rt);
      RowBeforeStep(xs, ys, keys);
      RowBeforeStep(ys, xs, keys);
    }
  }

  lemma StringsTransitive(a: string, b: string, c: string)
    ensures StringBefore(a, b) && StringBefore(b, c) ==> StringBefore(a, c)
    ensures StringBefore(a, c) ==> StringBefore(a, b) || StringBefore(b, c)
    ensures !(StringBefore(a, b) && StringBefore(b, a))
  {
    hide Less, Utf8, StringBefore;
    Utf8Order(a, b);
    Utf8Order(b, c);
    Utf8Order(a, c);
    Utf8Order(b, a);
    var x, y, z := Utf8(a), Utf8(b), Utf8(c);
    if Less(x, y) && Less(y, z) {
      LessTransitive(x, y, z);
    }
    if Less(x, y) {
      LessAsymmetric(x, y);
    }
    if Less(x, z) && !Less(x, y) {
      LessTotal(x, y);
      if Less(y, x) {
        LessTransitive(y, x, z);
      }
    }
  }

  /** Within one kind the order of values is a strict weak order. */
  lemma WeakOrder(x: Value, y: Value, z: Value)
    requires SameKind(x, y) && SameKind(y, z) && SameKind(x, z)
    ensures SortsBefore(x, y) && SortsBefore(y, z) ==> SortsBefore(x, z)
    ensures SortsBefore(x, z) ==> SortsBefore(x, y) || SortsBefore(y, z)
    ensures !(SortsBefore(x, y) && SortsBefore(y, x))
  {
    hide FloatNumber, StringBefore;
    if x.Str? && y.Str? && z.Str? {
      StringsTransitive(x.s, y.s, z.s);
    } else if x.Str? && y.Str? {
      StringsTransitive(x.s, y.s, x.s);
    }
  }

  lemma {:induction false} RowsWeakOrder(xs: seq<Value>, ys: seq<Value>, zs: seq<Value>, keys: seq<SortKey>)
    requires |xs| == |ys| == |zs| == |keys| && Comparable(xs, ys) && Comparable(ys, zs) && Comparable(xs, zs)
    ensures RowBefore(xs, ys, keys) && RowBefore(ys, zs, keys) ==> RowBefore(xs, zs, keys)
    ensures RowBefore(xs, zs, keys) ==> RowBefore(xs, ys, keys) || RowBefore(ys, zs, keys)
    ensures !(RowBefore(xs, ys, keys) && RowBefore(ys, xs, keys))
    decreases |keys|
  {
    hide SortsBefore;
    if keys != [] {
      var x, y, z := xs[0], ys[0], zs[0];
      KindSymmetric(x, y);
      KindSymmetric(y, z);
      KindSymmetric(x, z);
      hide SameKind;
      WeakOrder(x, y, z);
      WeakOrder(z, y, x);
      WeakOrder(y, x, z);
      WeakOrder(x, z, y);
      WeakOrder(y, z, x);
      WeakOrder(z, x, y);
      RowsWeakOrder(xs[1..], ys[1..], zs[1..], keys[1..]);
      RowBeforeStep(xs, ys, keys);
      RowBeforeStep(ys, xs, keys);
      RowBeforeStep(ys, zs, keys);
      RowBeforeStep(xs, zs, keys);
      hide RowBefore;
    }
  }

  lemma KindSymmetric(x: Value, y: Value)
    requires SameKind(x, y)
    ensures SameKind(y, x)
  {
  }

  // ----- a stable sort -----

  /** The comparisons all have results, and these are those of a strict weak order. */
  ghost predicate WeaklyOrdered(m: seq<seq<Comparison>>) {
    && (forall i :: 0 <= i < |m| ==> |m[i]| == |m|)
    && (forall i, j :: 0 <= i < |m| && 0 <= j < |m| ==> m[i][j].Success?)
    && (forall i, j :: 0 <= i < |m| && 0 <= j < |m| ==> (m[i][j].value.Below? <==> m[j][i].value.Above?))
    && (forall i, j, k :: 0 <= i < |m| && 0 <= j < |m| && 0 <= k < |m| && m[i][k].value.Below? ==>
          m[i][j].value.Below? || m[j][k].value.Below?)
  }

  ghost predicate Permutation(p: seq<nat>, n: nat) {
    |p| == n && Indices(p, n) && forall a, b :: 0 <= a < b < |p| ==> p[a] != p[b]
  }

  /** What a stable sort promises where its comparisons are those of a strict weak order. */
  ghost predicate SortsStably(sorter: Sorter) {
    forall m: seq<seq<Comparison>> :: WeaklyOrdered(m) ==>
      && sorter(m).Success?
      && var p: seq<nat> := sorter(m).value;
      && Permutation(p, |m|)
      && forall a, b :: 0 <= a < b < |p| ==>
           !m[p[b]][p[a]].value.Below? && (m[p[a]][p[b]].value.Same? ==> p[a] < p[b])
  }

  /** The rows have these values of the sort keys, of one kind for each key. */
  ghost predicate Keyed(rs: ResultSet, keys: seq<SortKey>, vs: seq<seq<Value>>, rt: Runtime)
    requires RowsOk(rs)
  {
    && |vs| == |rs.rows|
    && (forall i :: 0 <= i < |vs| ==> KeysHave(RowOf(rs, i), keys, vs[i], rt))
    && (forall i, j :: 0 <= i < |vs| && 0 <= j < |vs| ==> Comparable(vs[i], vs[j]))
  }

  lemma {:induction false} KeyedCompare(rs: ResultSet, keys: seq<SortKey>, vs: seq<seq<Value>>, rt: Runtime, i: nat, j: nat)
    requires RowsOk(rs) && Keyed(rs, keys, vs, rt) && i < |vs| && j < |vs|
    ensures |vs[i]| == |vs[j]| == |keys|
    ensures var c := ComparisonsOf(rs, keys, rt)[i][j];
            c.Success? && (c.value.Below? <==> RowBefore(vs[i], vs[j], keys)) && (c.value.Above? <==> RowBefore(vs[j], vs[i], keys))
  {
    hide Evaluate, CompareRows, RowBefore, Comparable;
    RowsCompare(RowOf(rs, i), RowOf(rs, j), keys, vs[i], vs[j], rt);
  }

  lemma {:induction false} KeyedWeaklyOrdered(rs: ResultSet, keys: seq<SortKey>, vs: seq<seq<Value>>, rt: Runtime)
    requires RowsOk(rs) && Keyed(rs, keys, vs, rt)
    ensures WeaklyOrdered(ComparisonsOf(rs, keys, rt))
  {
    var m: seq<seq<Comparison>> := ComparisonsOf(rs, keys, rt);
    hide ComparisonsOf, RowBefore, Comparable, KeysHave;
    forall i, j | 0 <= i < |m| && 0 <= j < |m| ensures m[i][j].Success? {
      KeyedCompare(rs, keys, vs, rt, i, j);
    }
    forall i, j | 0 <= i < |m| && 0 <= j < |m|
      ensures (m[i][j].value.Below? <==> m[j][i].value.Above?)
    {
      KeyedCompare(rs, keys, vs, rt, i, j);
      KeyedCompare(rs, keys, vs, rt, j, i);
    }
    forall i, j, k | 0 <= i < |m| && 0 <= j < |m| && 0 <= k < |m| && m[i][k].value.Below?
      ensures m[i][j].value.Below? || m[j][k].value.Below?
    {
      KeyedCompare(rs, keys, vs, rt, i, k);
      KeyedCompare(rs, keys, vs, rt, i, j);
      KeyedCompare(rs, keys, vs, rt, j, k);
      RowsWeakOrder(vs[i], vs[j], vs[k], keys);
    }
  }

  /**
   A sort whose keys have values of one kind each on all rows: the same rows, none
   before one it should follow, each key breaking the ties of the ones before it in
   its own direction, and rows that tie on all keys in the order they had.
   */
  lemma {:induction false} SortMeaning(rs: ResultSet, keys: seq<SortKey>, vs: seq<seq<Value>>, lib: Library) returns (p: seq<nat>)
    requires RowsOk(rs) && LibraryOk(lib) && SortsStably(lib.sorter) && Keyed(rs, keys, vs, lib.rt)
    ensures Permutation(p, |rs.rows|)
    ensures RunSort(rs, keys, lib) == Success(ResultSet(rs.columns, Permute(rs.rows, p)))
    ensures forall i :: 0 <= i < |vs| ==> |vs[i]| == |keys|
    ensures forall a, b :: 0 <= a < b < |p| ==>
              && !RowBefore(vs[p[b]], vs[p[a]], keys)
              && (!RowBefore(vs[p[a]], vs[p[b]], keys) ==> p[a] < p[b])
  {
    var m: seq<seq<Comparison>> := ComparisonsOf(rs, keys, lib.rt);
    KeyedWeaklyOrdered(rs, keys, vs, lib.rt);
    p := lib.sorter(m).value;
    assert |m| == |rs.rows|;
    hide ComparisonsOf, RowBefore, Comparable, KeysHave, WeaklyOrdered;
    forall i | 0 <= i < |vs| ensures |vs[i]| == |keys| {
      KeyedCompare(rs, keys, vs, lib.rt, i, i);
    }
    forall a, b | 0 <= a < b < |p|
      ensures !RowBefore(vs[p[b]], vs[p[a]], keys)
      ensures !RowBefore(vs[p[a]], vs[p[b]], keys) ==> p[a] < p[b]
    {
      KeyedCompare(rs, keys, vs, lib.rt, p[a], p[b]);
      KeyedCompare(rs, keys, vs, lib.rt, p[b], p[a]);
    }
  }

  /** Across types the comparison is no order: 1 and 2 both tie with a string. */
  lemma NoOrderAcrossTypes(s: string, rt: Runtime)
    ensures CompareValues(Integer(1), Str(s), rt) == Same && CompareValues(Str(s), Integer(2), rt) == Same
    ensures CompareValues(Integer(1), Integer(2), rt) == Below
  {
  }
}
