/**
 Result sets that list the same nodes in the same order under different
 property columns, and the operators that cannot tell them apart.
 */
module PlanEquivalence {
  import opened Bytes
  import opened Wrappers
  import opened Values
  import opened Syntax
  import opened Expressions
  import opened GraphKeys
  import opened Plans
  import opened PatternRows

  /** The result set lists the nodes under some property columns out of `all`. */
  ghost predicate Shows(rs: ResultSet, list: seq<Node>, v: string, keys: seq<string>, all: set<string>, lib: Library) {
    rs == RowsFor(list, Some(v), keys, lib) && forall k :: k in keys ==> k in all
  }

  /** Equal, or the same nodes in the same order. */
  ghost predicate Equivalent(a: ResultSet, b: ResultSet, v: string, all: set<string>, lib: Library) {
    a == b || exists list, ka, kb :: Shows(a, list, v, ka, all, lib) && Shows(b, list, v, kb, all, lib)
  }

  ghost predicate PlainSet(all: set<string>, v: string) {
    PlainVariable(v) && forall k :: k in all ==> PlainName(k, v)
  }

  // ----- what a result set shows -----

  /** Rows tell the values of their nodes, whatever the property columns. */
  lemma {:induction false} SameRowsSameValues(a: seq<Node>, b: seq<Node>, v: string, ka: seq<string>, kb: seq<string>,
                                              lib: Library)
    requires RowsFor(a, Some(v), ka, lib) == RowsFor(b, Some(v), kb, lib)
    ensures |a| == |b| && forall i :: 0 <= i < |a| ==> NodeValue(a[i]) == NodeValue(b[i])
  {
    hide NodeValue, ColumnsFor, RowFor;
    assert |ColumnsFor(Some(v), ka)| == |ColumnsFor(Some(v), kb)|;
    forall i | 0 <= i < |a| ensures NodeValue(a[i]) == NodeValue(b[i]) {
      assert RowFor(a[i], Some(v), ka, lib) == RowsFor(a, Some(v), ka, lib).rows[i];
      assert RowFor(b[i], Some(v), kb, lib) == RowsFor(b, Some(v), kb, lib).rows[i];
      NodeInRow(a[i], v, ka, lib);
      NodeInRow(b[i], v, kb, lib);
    }
  }

  lemma NodeInRow(n: Node, v: string, keys: seq<string>, lib: Library)
    ensures RowFor(n, Some(v), keys, lib)[2 + |keys|] == NodeValue(n)
  {
    hide NodeValue, LabelList;
    var head := [Str(lib.text(n.id)), List(Strings(LabelList(n)))] + PropertyValues(n, keys);
    assert RowFor(n, Some(v), keys, lib) == head + ([NodeValue(n)] + PropertyValues(n, keys));
  }

  /** In one graph the value tells the node. */
  lemma ValueTellsNode(a: Node, b: Node)
    requires NodeValue(a) == NodeValue(b) && a.graphId == b.graphId
    ensures a == b
  {
    assert forall l :: l in a.labels <==> l in LabelList(a);
    assert forall l :: l in b.labels <==> l in LabelList(b);
    assert a.labels == b.labels;
  }

  /** Equivalent result sets show the same nodes of a graph. */
  lemma {:induction false} EquivalentNodes(a: ResultSet, b: ResultSet, la: seq<Node>, lb: seq<Node>, v: string,
                                           ka: seq<string>,
                                           kb: seq<string>, all: set<string>, lib: Library, graphId: Uuid)
    requires Shows(a, la, v, ka, all, lib) && Shows(b, lb, v, kb, all, lib) && Equivalent(a, b, v, all, lib)
    requires forall n :: n in la || n in lb ==> n.graphId == graphId
    ensures la == lb
  {
    hide RowsFor, NodeValue;
    if a == b {
      SameRowsSameValues(la, lb, v, ka, kb, lib);
    } else {
      var list, kx, ky :| Shows(a, list, v, kx, all, lib) && Shows(b, list, v, ky, all, lib);
      SameRowsSameValues(la, list, v, ka, kx, lib);
      SameRowsSameValues(list, lb, v, ky, kb, lib);
    }
    forall i | 0 <= i < |la| ensures la[i] == lb[i] {
      assert la[i] in la && lb[i] in lb;
      ValueTellsNode(la[i], lb[i]);
    }
  }

  lemma PlainColumns(rs: ResultSet, list: seq<Node>, v: string, keys: seq<string>, all: set<string>, lib: Library)
    requires Shows(rs, list, v, keys, all, lib) && PlainSet(all, v)
    ensures PlainKeys(keys, v) && PlainVariable(v)
    ensures RowsOk(rs) && |rs.rows| == |list|
    ensures forall i :: 0 <= i < |list| ==> RowOf(rs, i) == NodeRow(list[i], v, keys, lib)
  {
    hide ColumnsFor, RowFor, PlainName;
  }

  // ----- filter -----

  /** The nodes the predicate is true of. */
  function Kept(list: seq<Node>, e: Expression, v: string, lib: Library): Result<seq<Node>, EvalError> {
    if list == [] then Success([])
    else
      var n := |list| - 1;
      var before :- Kept(list[..n], e, v, lib);
      var x :- Meaning(e, list[n], v, lib);
      Success(if x == Bool(true) then before + [list[n]] else before)
  }

  lemma RowsStep(list: seq<Node>, v: string, keys: seq<string>, lib: Library)
    requires list != []
    ensures var n := |list| - 1;
            && RowsFor(list, Some(v), keys, lib).rows[..n] == RowsFor(list[..n], Some(v), keys, lib).rows
            && RowsFor(list, Some(v), keys, lib).rows[n] == RowFor(list[n], Some(v), keys, lib)
  {
    hide RowFor, ColumnsFor;
  }

  lemma RowsAppend(list: seq<Node>, n: Node, v: string, keys: seq<string>, lib: Library)
    ensures RowsFor(list + [n], Some(v), keys, lib).rows ==
              RowsFor(list, Some(v), keys, lib).rows + [RowFor(n, Some(v), keys, lib)]
  {
    hide RowFor, ColumnsFor;
  }

  lemma {:induction false} FilterKeeps(list: seq<Node>, e: Expression, v: string, keys: seq<string>, lib: Library)
    requires PlainVariable(v) && PlainKeys(keys, v) && PlainExpr(e, v)
    ensures FilterRows(ColumnsFor(Some(v), keys), RowsFor(list, Some(v), keys, lib).rows, e, lib.rt) ==
              match Kept(list, e, v, lib)
              case Success(kept) => Success(RowsFor(kept, Some(v), keys, lib).rows)
              case Failure(error) => Failure(error)
  {
    hide RowFor, ColumnsFor, Evaluate, PlainExpr, PlainKeys, Meaning, RowsFor;
    if list == [] {
      assert RowsFor(list, Some(v), keys, lib).rows == [];
    } else {
      var n := |list| - 1;
      RowsStep(list, v, keys, lib);
      FilterKeeps(list[..n], e, v, keys, lib);
      ColumnsIrrelevant(e, list[n], v, keys, lib);
      if Kept(list[..n], e, v, lib).Success? {
        RowsAppend(Kept(list[..n], e, v, lib).value, list[n], v, keys, lib);
      }
    }
  }

  lemma FilterEquivalent(a: ResultSet, b: ResultSet, e: Expression, v: string, all: set<string>, lib: Library)
    requires RowsOk(a) && RowsOk(b) && Equivalent(a, b, v, all, lib) && PlainSet(all, v)
    requires a == b || PlainExpr(e, v)
    ensures RunFilter(a, e, lib.rt).Success? == RunFilter(b, e, lib.rt).Success?
    ensures RunFilter(a, e, lib.rt).Success? ==>
              Equivalent(RunFilter(a, e, lib.rt).value, RunFilter(b, e, lib.rt).value, v, all, lib)
  {
    hide PlainExpr, PlainSet, Evaluate, ColumnsFor, RowFor, PlainName;
    if a != b {
      var list, ka, kb :| Shows(a, list, v, ka, all, lib) && Shows(b, list, v, kb, all, lib);
      FilterLists(a, list, e, v, ka, all, lib);
      FilterLists(b, list, e, v, kb, all, lib);
    }
  }

  /** A filter leaves the rows of the nodes its predicate is true of. */
  lemma FilterLists(rs: ResultSet, list: seq<Node>, e: Expression, v: string, keys: seq<string>, all: set<string>,
                    lib: Library)
    requires RowsOk(rs) && Shows(rs, list, v, keys, all, lib) && PlainSet(all, v) && PlainExpr(e, v)
    ensures RunFilter(rs, e, lib.rt).Success? <==> Kept(list, e, v, lib).Success?
    ensures Kept(list, e, v, lib).Success? ==>
              RunFilter(rs, e, lib.rt).value == RowsFor(Kept(list, e, v, lib).value, Some(v), keys, lib)
              && Shows(RunFilter(rs, e, lib.rt).value, Kept(list, e, v, lib).value, v, keys, all, lib)
  {
    hide PlainExpr, Evaluate, ColumnsFor, RowFor, PlainName, Kept, FilterRows;
    PlainColumns(rs, list, v, keys, all, lib);
    FilterKeeps(list, e, v, keys, lib);
  }

  // ----- limit -----

  lemma WindowLists(rs: ResultSet, list: seq<Node>, count: Option<nat>, offset: Option<nat>, v: string, keys: seq<string>,
                    all: set<string>, lib: Library)
    requires RowsOk(rs) && Shows(rs, list, v, keys, all, lib)
    ensures Shows(RunLimit(rs, count, offset), Window(list, count, offset), v, keys, all, lib)
  {
    hide ColumnsFor, RowFor;
    assert Window(rs.rows, count, offset) == RowsFor(Window(list, count, offset), Some(v), keys, lib).rows;
  }

  lemma LimitEquivalent(a: ResultSet, b: ResultSet, count: Option<nat>, offset: Option<nat>, v: string, all: set<string>,
                        lib: Library)
    requires RowsOk(a) && RowsOk(b) && Equivalent(a, b, v, all, lib)
    ensures Equivalent(RunLimit(a, count, offset), RunLimit(b, count, offset), v, all, lib)
  {
    hide ColumnsFor, RowFor, Window, Shows;
    if a != b {
      var list, ka, kb :| Shows(a, list, v, ka, all, lib) && Shows(b, list, v, kb, all, lib);
      WindowLists(a, list, count, offset, v, ka, all, lib);
      WindowLists(b, list, count, offset, v, kb, all, lib);
    }
  }

  // ----- sort -----

  lemma {:induction false} SameComparison(a: Record, b: Record, c: Record, d: Record, keys: seq<SortKey>, v: string,
                                          rt: Runtime)
    requires Agree(a, c, v, rt) && Agree(b, d, v, rt)
    requires forall i :: 0 <= i < |keys| ==> PlainExpr(keys[i].e, v)
    ensures CompareRows(a, b, keys, rt) == CompareRows(c, d, keys, rt)
  {
    hide Agree, Evaluate, PlainExpr, CompareValues;
    AgreeOnVariable(a, c, v, rt);
    AgreeOnVariable(b, d, v, rt);
    if keys != [] {
      EvaluateAgrees(keys[0].e, a, c, v, rt);
      EvaluateAgrees(keys[0].e, b, d, v, rt);
      SameComparison(a, b, c, d, keys[1..], v, rt);
    }
  }

  lemma SameComparisons(a: ResultSet, b: ResultSet, list: seq<Node>, keys: seq<SortKey>, v: string, ka: seq<string>,
                        kb: seq<string>, all: set<string>, lib: Library)
    requires Shows(a, list, v, ka, all, lib) && Shows(b, list, v, kb, all, lib) && PlainSet(all, v)
    requires forall i :: 0 <= i < |keys| ==> PlainExpr(keys[i].e, v)
    ensures RowsOk(a) && RowsOk(b) && ComparisonsOf(a, keys, lib.rt) == ComparisonsOf(b, keys, lib.rt)
  {
    hide PlainExpr, PlainName, ColumnsFor, RowFor, Shows, NodeRow, Agree, PlainKeys, CompareRows;
    PlainColumns(a, list, v, ka, all, lib);
    PlainColumns(b, list, v, kb, all, lib);
    var ma, mb := ComparisonsOf(a, keys, lib.rt), ComparisonsOf(b, keys, lib.rt);
    forall i | 0 <= i < |list| ensures ma[i] == mb[i] {
      forall j | 0 <= j < |list| ensures ma[i][j] == mb[i][j] {
        RowsAgree(list[i], v, ka, kb, lib);
        RowsAgree(list[j], v, ka, kb, lib);
        SameComparison(RowOf(a, i), RowOf(a, j), RowOf(b, i), RowOf(b, j), keys, v, lib.rt);
      }
    }
  }

  lemma PermuteLists(rs: ResultSet, list: seq<Node>, p: seq<nat>, v: string, keys: seq<string>, all: set<string>,
                     lib: Library)
    requires Shows(rs, list, v, keys, all, lib) && Indices(p, |list|)
    ensures Shows(ResultSet(rs.columns, Permute(rs.rows, p)), Permute(list, p), v, keys, all, lib)
  {
    hide ColumnsFor, RowFor;
  }

  lemma SortEquivalent(a: ResultSet, b: ResultSet, keys: seq<SortKey>, v: string, all: set<string>, lib: Library)
    requires RowsOk(a) && RowsOk(b) && LibraryOk(lib) && Equivalent(a, b, v, all, lib) && PlainSet(all, v)
    requires a == b || forall i :: 0 <= i < |keys| ==> PlainExpr(keys[i].e, v)
    ensures RunSort(a, keys, lib).Success? == RunSort(b, keys, lib).Success?
    ensures RunSort(a, keys, lib).Success? ==>
              Equivalent(RunSort(a, keys, lib).value, RunSort(b, keys, lib).value, v, all, lib)
  {
    hide PlainExpr, PlainSet, ColumnsFor, RowFor, CompareRows, Permute;
    if a != b {
      var list, ka, kb :| Shows(a, list, v, ka, all, lib) && Shows(b, list, v, kb, all, lib);
      SameComparisons(a, b, list, keys, v, ka, kb, all, lib);
      match lib.sorter(ComparisonsOf(a, keys, lib.rt))
      case Success(p) =>
        PermuteLists(a, list, p, v, ka, all, lib);
        PermuteLists(b, list, p, v, kb, all, lib);
      case Failure(_) =>
    }
  }

  // ----- project -----

  ghost predicate NoneInternal(all: set<string>, v: string) {
    !Internal(v) && forall k :: k in all ==> !Internal(k)
  }

  lemma {:induction false} CarriedConcat(a: seq<string>, b: seq<string>, names: seq<string>)
    ensures Carried(a + b, names) == Carried(a, names) + Carried(b, names)
  {
    if a == [] {
      assert a + b == b;
    } else {
      assert (a + b)[0] == a[0] && (a + b)[1..] == a[1..] + b;
      CarriedConcat(a[1..], b, names);
    }
  }

  lemma {:induction false} NothingCarried(a: seq<string>, names: seq<string>)
    requires forall i :: 0 <= i < |a| ==> !Internal(a[i])
    ensures Carried(a, names) == []
  {
    hide Internal;
    if a != [] {
      NothingCarried(a[1..], names);
    }
  }

  lemma DottedNotInternal(v: string, k: string)
    requires !Internal(v)
    ensures !Internal(Dotted(v, k))
  {
    var d := Dotted(v, k);
    assert |v| < |d| && d[|v|] == '.';
    if |v| >= 2 {
      assert d[0] == v[0] && d[1] == v[1];
      assert "__" <= d ==> "__" <= v;
    } else {
      assert |d| >= 2 ==> d[0] == '.' || d[1] == '.';
    }
  }

  /** Only the two internal columns of a scan are carried along. */
  lemma CarriedColumns(v: string, keys: seq<string>, names: seq<string>, all: set<string>)
    requires NoneInternal(all, v) && forall k :: k in keys ==> k in all
    ensures Carried(ColumnsFor(Some(v), keys), names) == Carried([NODE_ID, LABELS], names)
  {
    hide Internal, Carried, Dotted;
    var tail := keys + ([v] + DottedKeys(v, keys));
    forall i | 0 <= i < |tail| ensures !Internal(tail[i]) {
      if i < |keys| {
        assert tail[i] == keys[i] && keys[i] in keys;
      } else if i > |keys| {
        DottedNotInternal(v, keys[i - |keys| - 1]);
      }
    }
    NothingCarried(tail, names);
    CarriedConcat([NODE_ID, LABELS], tail, names);
    assert ColumnsFor(Some(v), keys) == [NODE_ID, LABELS] + tail;
  }

  lemma GetInternal(n: Node, v: string, keys: seq<string>, lib: Library)
    ensures Get(NodeRow(n, v, keys, lib), NODE_ID) == Some(Str(lib.text(n.id)))
    ensures Get(NodeRow(n, v, keys, lib), LABELS) == Some(List(Strings(LabelList(n))))
  {
    hide PropertyValues, DottedKeys, LabelList;
    var columns, row := ColumnsFor(Some(v), keys), RowFor(n, Some(v), keys, lib);
    assert columns[0] == NODE_ID && columns[1] == LABELS;
    assert columns[0] in columns && columns[1] in columns;
    assert row[0] == Str(lib.text(n.id)) && row[1] == List(Strings(LabelList(n)));
    hide ColumnsFor, RowFor, Position;
  }

  lemma {:induction false} CarriedFrom(columns: seq<string>, names: seq<string>)
    ensures forall c :: c in Carried(columns, names) ==> c in columns
  {
    if columns != [] {
      CarriedFrom(columns[1..], names);
    }
  }

  lemma SameCarried(n: Node, v: string, ka: seq<string>, kb: seq<string>, carried: seq<string>, lib: Library)
    requires forall c :: c in carried ==> c == NODE_ID || c == LABELS
    ensures CarriedValues(NodeRow(n, v, ka, lib), carried) == CarriedValues(NodeRow(n, v, kb, lib), carried)
  {
    hide NodeRow, Get, Strings, LabelList;
    GetInternal(n, v, ka, lib);
    GetInternal(n, v, kb, lib);
    forall i | 0 <= i < |carried|
      ensures CarriedValues(NodeRow(n, v, ka, lib), carried)[i] == CarriedValues(NodeRow(n, v, kb, lib), carried)[i]
    {
      assert carried[i] in carried;
    }
  }

  lemma {:induction false} SameProjection(list: seq<Node>, v: string, ka: seq<string>, kb: seq<string>, es: seq<Expression>,
                                          carried: seq<string>, lib: Library)
    requires PlainVariable(v) && PlainKeys(ka, v) && PlainKeys(kb, v)
    requires forall i :: 0 <= i < |es| ==> PlainExpr(es[i], v)
    requires forall c :: c in carried ==> c == NODE_ID || c == LABELS
    ensures ProjectRows(ColumnsFor(Some(v), ka), RowsFor(list, Some(v), ka, lib).rows, es, carried, lib.rt)
         == ProjectRows(ColumnsFor(Some(v), kb), RowsFor(list, Some(v), kb, lib).rows, es, carried, lib.rt)
  {
    hide ColumnsFor, RowFor, PlainExpr, PlainKeys, PlainVariable, EvaluateAll, CarriedValues, RowsFor, Agree;
    if list == [] {
      assert RowsFor(list, Some(v), ka, lib).rows == [] == RowsFor(list, Some(v), kb, lib).rows;
    } else {
      var n := |list| - 1;
      RowsStep(list, v, ka, lib);
      RowsStep(list, v, kb, lib);
      SameProjection(list[..n], v, ka, kb, es, carried, lib);
      RowsAgree(list[n], v, ka, kb, lib);
      EvaluateAllAgrees(es, NodeRow(list[n], v, ka, lib), NodeRow(list[n], v, kb, lib), v, lib.rt);
      SameCarried(list[n], v, ka, kb, carried, lib);
    }
  }

  /** A projection of equivalent result sets gives one and the same result set. */
  lemma ProjectEquivalent(a: ResultSet, b: ResultSet, es: seq<Expression>, aliases: seq<Option<string>>, v: string,
                          all: set<string>, lib: Library)
    requires RowsOk(a) && RowsOk(b) && Equivalent(a, b, v, all, lib) && PlainSet(all, v)
    requires a == b || (NoneInternal(all, v) && forall i :: 0 <= i < |es| ==> PlainExpr(es[i], v))
    ensures RunProject(a, es, aliases, lib) == RunProject(b, es, aliases, lib)
  {
    hide PlainExpr, PlainName, RowFor, Internal, ProjectRows, NamesFor, Carried, ColumnsFor;
    if a != b {
      var list, ka, kb :| Shows(a, list, v, ka, all, lib) && Shows(b, list, v, kb, all, lib);
      PlainColumns(a, list, v, ka, all, lib);
      PlainColumns(b, list, v, kb, all, lib);
      var names := NamesFor(es, aliases, lib);
      CarriedColumns(v, ka, names, all);
      CarriedColumns(v, kb, names, all);
      CarriedFrom([NODE_ID, LABELS], names);
      SameProjection(list, v, ka, kb, es, Carried([NODE_ID, LABELS], names), lib);
    }
  }
}
