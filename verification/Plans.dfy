/** Logical plans over one scanned pattern, and what executing them returns. */
module Plans {
  import opened Bytes
  import opened OrderedStore
  import opened Wrappers
  import opened Values
  import opened Syntax
  import opened Expressions
  import opened GraphKeys
  import opened GraphStore
  import opened ValueCodec
  import opened PropertyIndex
  import opened IndexScans

  datatype SortKey = SortKey(e: Expression, descending: bool)

  datatype Plan =
    | Scan(labels: seq<string>, variable: Option<string>)
    | Filter(input: Plan, predicate_: Expression)
    | Project(input: Plan, expressions: seq<Expression>, aliases: seq<Option<string>>)
    | Sort(input: Plan, orderBy: seq<SortKey>)
    | Limit(input: Plan, count: Option<nat>, offset: Option<nat>)
    | IndexScan(indexName: string, labels: seq<string>, variable: Option<string>, lookupProperties: seq<string>,
                lookupValues: seq<Expression>, remaining: Option<Expression>)

  datatype QueryError = Evaluation(error: EvalError) | IndexNotFound

  type QueryResult = Result<ResultSet, QueryError>

  type Comparison = Result<Ordering, EvalError>

  /** A stable sort that sees the rows only through the results of comparing them pairwise. */
  type Sorter = seq<seq<Comparison>> -> Result<seq<nat>, EvalError>

  /** The code this model does not look into: functions, float arithmetic, identifiers as text, and the sort. */
  datatype Library = Library(rt: Runtime, text: Uuid -> string, sorter: Sorter, columnName: (Expression, nat) -> string)

  /** The stored graph a query reads. */
  datatype Database = Database(nodes: NodeTable, family: IndexFamily, graphId: Uuid, env: Env)

  /** The iteration order of a hash set of property keys. */
  type KeyOrder = set<string> -> seq<string>

  ghost predicate OrderOk(order: KeyOrder) {
    forall s, k :: k in order(s) <==> k in s
  }

  // ----- rows of a scan -----

  const NODE_ID: string := "__node_id"
  const LABELS: string := "__labels"

  function LabelList(n: Node): seq<string> {
    SortedStrings(n.labels)
  }

  function NodeValue(n: Node): Value {
    NodeVal(n.id, LabelList(n), n.properties)
  }

  function PropertyValues(n: Node, keys: seq<string>): (r: seq<Value>)
    ensures |r| == |keys| && forall i :: 0 <= i < |keys| ==> r[i] == PropertyOf(NodeValue(n), keys[i])
  {
    seq(|keys|, i requires 0 <= i < |keys| => PropertyOf(NodeValue(n), keys[i]))
  }

  function Strings(s: seq<string>): (r: seq<Value>)
    ensures |r| == |s|
  {
    seq(|s|, i requires 0 <= i < |s| => Str(s[i]))
  }

  function Dotted(v: string, key: string): string {
    v + "." + key
  }

  function DottedKeys(v: string, keys: seq<string>): (r: seq<string>)
    ensures |r| == |keys| && forall i :: 0 <= i < |keys| ==> r[i] == Dotted(v, keys[i])
  {
    seq(|keys|, i requires 0 <= i < |keys| => Dotted(v, keys[i]))
  }

  /** Two internal columns, the property keys, and for a named variable the node and its keys again. */
  function ColumnsFor(variable: Option<string>, keys: seq<string>): (r: seq<string>)
    ensures |r| == 2 + |keys| + (if variable.Some? then 1 + |keys| else 0)
  {
    [NODE_ID, LABELS] + keys + (match variable case Some(v) => [v] + DottedKeys(v, keys) case None => [])
  }

  function RowFor(n: Node, variable: Option<string>, keys: seq<string>, lib: Library): (r: seq<Value>)
    ensures |r| == 2 + |keys| + (if variable.Some? then 1 + |keys| else 0)
  {
    [Str(lib.text(n.id)), List(Strings(LabelList(n)))] + PropertyValues(n, keys)
    + (if variable.Some? then [NodeValue(n)] + PropertyValues(n, keys) else [])
  }

  function RowsFor(list: seq<Node>, variable: Option<string>, keys: seq<string>, lib: Library): (rs: ResultSet)
    ensures RowsOk(rs) && |rs.rows| == |list| && rs.columns == ColumnsFor(variable, keys)
    ensures forall i :: 0 <= i < |list| ==> rs.rows[i] == RowFor(list[i], variable, keys, lib)
  {
    ResultSet(ColumnsFor(variable, keys), seq(|list|, i requires 0 <= i < |list| => RowFor(list[i], variable, keys, lib)))
  }

  function KeysOfNodes(list: seq<Node>): (s: set<string>)
    ensures forall k :: k in s <==> exists i :: 0 <= i < |list| && k in list[i].properties
  {
    if list == [] then {} else KeysOfNodes(list[..|list| - 1]) + list[|list| - 1].properties.Keys
  }

  predicate HasAllLabels(n: Node, labels: seq<string>) {
    forall l | l in labels :: l in n.labels
  }

  /** The nodes a scan lists: by the label index of the first label, then by all labels if there are several. */
  function ScannedNodes(nodes: NodeTable, graphId: Uuid, labels: seq<string>): seq<Node> {
    if labels == [] then NodesOf(nodes, graphId)
    else
      var list := WithLabel(NodesOf(nodes, graphId), labels[0]);
      if |labels| > 1 then Select(list, (n: Node) => HasAllLabels(n, labels)) else list
  }

  function RunScan(db: Database, labels: seq<string>, variable: Option<string>, lib: Library, order: KeyOrder): ResultSet {
    var list := ScannedNodes(db.nodes, db.graphId, labels);
    RowsFor(list, variable, order(KeysOfNodes(list)), lib)
  }

  // ----- operators -----

  /** The rows on which the predicate is true; the first error ends the filter. */
  function FilterRows(columns: seq<string>, rows: seq<seq<Value>>, e: Expression, rt: Runtime): Result<seq<seq<Value>>,
                      EvalError>
    requires forall i :: 0 <= i < |rows| ==> |rows[i]| == |columns|
  {
    if rows == [] then Success([])
    else
      var n := |rows| - 1;
      var before :- FilterRows(columns, rows[..n], e, rt);
      var v :- Evaluate(e, Record(columns, rows[n]), rt);
      Success(if v == Bool(true) then before + [rows[n]] else before)
  }

  lemma {:induction false} FilteredRowsOk(columns: seq<string>, rows: seq<seq<Value>>, e: Expression, rt: Runtime)
    requires forall i :: 0 <= i < |rows| ==> |rows[i]| == |columns|
    requires FilterRows(columns, rows, e, rt).Success?
    ensures RowsOk(ResultSet(columns, FilterRows(columns, rows, e, rt).value))
  {
    hide Evaluate;
    if rows != [] {
      FilteredRowsOk(columns, rows[..|rows| - 1], e, rt);
    }
  }

  function RunFilter(rs: ResultSet, e: Expression, rt: Runtime): (r: QueryResult)
    requires RowsOk(rs)
    ensures r.Success? ==> RowsOk(r.value)
  {
    match FilterRows(rs.columns, rs.rows, e, rt)
    case Success(rows) =>
      FilteredRowsOk(rs.columns, rs.rows, e, rt);
      Success(ResultSet(rs.columns, rows))
    case Failure(error) => Failure(Evaluation(error))
  }

  function Min(a: nat, b: nat): nat {
    if a < b then a else b
  }

  /** The window of rows that skipping and taking leaves. */
  function Window<T>(rows: seq<T>, count: Option<nat>, offset: Option<nat>): seq<T> {
    var from := Min(if offset.Some? then offset.value else 0, |rows|);
    rows[from..if count.Some? then Min(from + count.value, |rows|) else |rows|]
  }

  function RunLimit(rs: ResultSet, count: Option<nat>, offset: Option<nat>): (r: ResultSet)
    requires RowsOk(rs)
    ensures RowsOk(r)
  {
    ResultSet(rs.columns, Window(rs.rows, count, offset))
  }

  /** `cmp_values`: null first, no order between values of unrelated types. */
  function CompareValues(a: Value, b: Value, rt: Runtime): Ordering {
    match (a, b)
    case (Null, Null) => Same
    case (Null, _) => Below
    case (_, Null) => Above
    case (Integer(x), Integer(y)) => CompareInts(x, y)
    case (Float(x), Float(y)) => OrSame(CompareFloats(x, y))
    case (Integer(x), Float(y)) => OrSame(CompareFloats(rt.toFloat(x), y))
    case (Float(x), Integer(y)) => OrSame(CompareFloats(x, rt.toFloat(y)))
    case (Str(x), Str(y)) => CompareStrings(x, y)
    case (Bool(x), Bool(y)) => if x == y then Same else if y then Below else Above
    case _ => Same
  }

  function OrSame(o: Option<Ordering>): Ordering {
    match o case Some(x) => x case None => Same
  }

  function Reverse(o: Ordering): Ordering {
    match o case Below => Above case Same => Same case Above => Below
  }

  /** Two rows by the sort keys in turn. */
  function CompareRows(a: Record, b: Record, keys: seq<SortKey>, rt: Runtime): Comparison
    requires RecordOk(a) && RecordOk(b)
  {
    if keys == [] then Success(Same)
    else
      var x :- Evaluate(keys[0].e, a, rt);
      var y :- Evaluate(keys[0].e, b, rt);
      var o := CompareValues(x, y, rt);
      if o != Same then Success(if keys[0].descending then Reverse(o) else o)
      else CompareRows(a, b, keys[1..], rt)
  }

  function ComparisonsOf(rs: ResultSet, keys: seq<SortKey>, rt: Runtime): (m: seq<seq<Comparison>>)
    requires RowsOk(rs)
    ensures |m| == |rs.rows| && forall i :: 0 <= i < |m| ==> |m[i]| == |m|
    ensures forall i, j :: 0 <= i < |m| && 0 <= j < |m| ==> m[i][j] == CompareRows(RowOf(rs, i), RowOf(rs, j), keys, rt)
  {
    seq(|rs.rows|, i requires 0 <= i < |rs.rows| =>
      seq(|rs.rows|, j requires 0 <= j < |rs.rows| => CompareRows(RowOf(rs, i), RowOf(rs, j), keys, rt)))
  }

  predicate Indices(p: seq<nat>, n: nat) {
    forall i :: 0 <= i < |p| ==> p[i] < n
  }

  function Permute<T>(rows: seq<T>, p: seq<nat>): (r: seq<T>)
    requires Indices(p, |rows|)
    ensures |r| == |p| && forall i :: 0 <= i < |p| ==> r[i] == rows[p[i]]
  {
    seq(|p|, i requires 0 <= i < |p| => rows[p[i]])
  }

  ghost predicate LibraryOk(lib: Library) {
    forall m :: lib.sorter(m).Success? ==> Indices(lib.sorter(m).value, |m|)
  }

  function RunSort(rs: ResultSet, keys: seq<SortKey>, lib: Library): (r: QueryResult)
    requires RowsOk(rs) && LibraryOk(lib)
    ensures r.Success? ==> RowsOk(r.value)
  {
    match lib.sorter(ComparisonsOf(rs, keys, lib.rt))
    case Success(p) => Success(ResultSet(rs.columns, Permute(rs.rows, p)))
    case Failure(error) => Failure(Evaluation(error))
  }

  predicate ContainsAggregate(e: Expression) {
    match e
    case Aggregate(_, _, _) => true
    case Binary(l, _, r) => ContainsAggregate(l) || ContainsAggregate(r)
    case Unary(_, o) => ContainsAggregate(o)
    case FunctionCall(_, args) => exists i | 0 <= i < |args| :: ContainsAggregate(args[i])
    case _ => false
  }

  predicate StartsWith(s: string, prefix: string) {
    prefix <= s
  }

  predicate Internal(column: string) {
    StartsWith(column, "__")
  }

  function NamesFor(es: seq<Expression>, aliases: seq<Option<string>>, lib: Library): seq<string> {
    seq(|es|, i requires 0 <= i < |es| =>
      if i < |aliases| && aliases[i].Some? then aliases[i].value else lib.columnName(es[i], i))
  }

  /** The internal columns that are carried along because they are not projected. */
  function Carried(columns: seq<string>, names: seq<string>): seq<string> {
    if columns == [] then []
    else (if Internal(columns[0]) && columns[0] !in names then [columns[0]] else []) + Carried(columns[1..], names)
  }

  function CarriedValues(r: Record, carried: seq<string>): (vs: seq<Value>)
    requires RecordOk(r)
    ensures |vs| == |carried|
  {
    seq(|carried|, i requires 0 <= i < |carried| => match Get(r, carried[i]) case Some(v) => v case None => Null)
  }

  lemma {:induction false} EvaluateAllSize(es: seq<Expression>, r: Record, rt: Runtime)
    requires RecordOk(r) && EvaluateAll(es, r, rt).Success?
    ensures |EvaluateAll(es, r, rt).value| == |es|
  {
    hide Evaluate;
    if es != [] {
      EvaluateAllSize(es[1..], r, rt);
    }
  }

  function ProjectRows(columns: seq<string>, rows: seq<seq<Value>>, es: seq<Expression>, carried: seq<string>, rt: Runtime):
    (r: Result<seq<seq<Value>>, EvalError>)
    requires forall i :: 0 <= i < |rows| ==> |rows[i]| == |columns|
    ensures r.Success? ==> |r.value| == |rows| && forall i :: 0 <= i < |rows| ==> |r.value[i]| == |es| + |carried|
  {
    if rows == [] then Success([])
    else
      var n := |rows| - 1;
      var row := Record(columns, rows[n]);
      var before :- ProjectRows(columns, rows[..n], es, carried, rt);
      var vs :- EvaluateAll(es, row, rt);
      EvaluateAllSize(es, row, rt);
      Success(before + [vs + CarriedValues(row, carried)])
  }

  /** Projection without aggregates; a query with no input at all gives one row. */
  function RunProject(rs: ResultSet, es: seq<Expression>, aliases: seq<Option<string>>, lib: Library): (r: QueryResult)
    requires RowsOk(rs)
    ensures r.Success? ==> RowsOk(r.value)
  {
    var names := NamesFor(es, aliases, lib);
    var carried := Carried(rs.columns, names);
    var rows := if rs.rows == [] && rs.columns == [] then [[]] else rs.rows;
    if exists i | 0 <= i < |es| :: ContainsAggregate(es[i]) then Failure(Evaluation(NotImplemented))
    else
      match ProjectRows(rs.columns, rows, es, carried, lib.rt)
      case Success(out) => Success(ResultSet(names + carried, out))
      case Failure(error) => Failure(Evaluation(error))
  }

  // ----- index scan -----

  const EMPTY_ROW: Record := Record([], [])

  function FindIndex(defs: seq<IndexDefinition>, name: string): Option<IndexDefinition> {
    if defs == [] then None else if defs[0].name == name then Some(defs[0]) else FindIndex(defs[1..], name)
  }

  /** The nodes found under ids that are stored and have all the labels. */
  function LoadAll(nodes: NodeTable, graphId: Uuid, ids: seq<Uuid>, labels: seq<string>): seq<Node> {
    if ids == [] then []
    else
      var k := NodeKey(graphId, ids[0]);
      (if k in nodes && HasAllLabels(nodes[k], labels) then [nodes[k]] else []) + LoadAll(nodes, graphId, ids[1..], labels)
  }

  ghost function RunIndexScan(db: Database, indexName: string, labels: seq<string>, variable: Option<string>,
                              lookupValues: seq<Expression>, remaining: Option<Expression>, lib: Library, order: KeyOrder):
    (r: QueryResult)
    requires FamilyOk(db.family, db.env)
    ensures r.Success? ==> RowsOk(r.value)
  {
    match FindIndex(DefsAt(db.family, db.graphId, db.env), indexName)
    case None => Failure(IndexNotFound)
    case Some(def) =>
      match EvaluateAll(lookupValues, EMPTY_ROW, lib.rt)
      case Failure(error) => Failure(Evaluation(error))
      case Success(values) =>
        var ks := LookupKeys(db.family, def, values, db.env);
        var list := LoadAll(db.nodes, db.graphId, IdsIn(ks), labels);
        var rs := RowsFor(list, variable, order(KeysOfNodes(list)), lib);
        match remaining
        case Some(e) => RunFilter(rs, e, lib.rt)
        case None => Success(rs)
  }

  /** The ids at the end of index keys. */
  ghost function IdsIn(ks: seq<Bytes>): seq<Uuid> {
    if forall k :: k in ks ==> |k| >= 16 then IdsAt(ks) else []
  }

  // ----- execution -----

  ghost function Execute(plan: Plan, db: Database, lib: Library, order: KeyOrder): (r: QueryResult)
    requires FamilyOk(db.family, db.env) && LibraryOk(lib)
    ensures r.Success? ==> RowsOk(r.value)
  {
    match plan
    case Scan(labels, variable) => Success(RunScan(db, labels, variable, lib, order))
    case Filter(input, e) =>
      (match Execute(input, db, lib, order)
       case Success(rs) => RunFilter(rs, e, lib.rt)
       case Failure(error) => Failure(error))
    case Project(input, es, aliases) =>
      (match Execute(input, db, lib, order)
       case Success(rs) => RunProject(rs, es, aliases, lib)
       case Failure(error) => Failure(error))
    case Sort(input, keys) =>
      (match Execute(input, db, lib, order)
       case Success(rs) => RunSort(rs, keys, lib)
       case Failure(error) => Failure(error))
    case Limit(input, count, offset) =>
      (match Execute(input, db, lib, order)
       case Success(rs) => Success(RunLimit(rs, count, offset))
       case Failure(error) => Failure(error))
    case IndexScan(name, labels, variable, _, values, remaining) =>
      RunIndexScan(db, name, labels, variable, values, remaining, lib, order)
  }
}
