/**
 What an expression over one named pattern variable means does not depend on
 which property columns the scan happened to produce, nor on their order.
 */
module PatternRows {
  import opened Bytes
  import opened Wrappers
  import opened Values
  import opened Syntax
  import opened Expressions
  import opened GraphKeys
  import opened Plans

  /** A name no column of the scan but the property's own can be taken for. */
  predicate PlainName(p: string, v: string) {
    p != v && p != NODE_ID && p != LABELS && !StartsWith(p, v + ".")
  }

  predicate PlainVariable(v: string) {
    v != NODE_ID && v != LABELS
  }

  ghost predicate PlainKeys(keys: seq<string>, v: string) {
    forall k :: k in keys ==> PlainName(k, v)
  }

  /** The only identifier is the variable, and it is only read through plain property names. */
  predicate PlainExpr(e: Expression, v: string)
    decreases e
  {
    match e
    case Lit(_) => true
    case Identifier(x) => x == v
    case PropertyAccess(t, p) => if t.Identifier? then t.name == v && PlainName(p, v) else PlainExpr(t, v)
    case FunctionCall(_, args) => forall i | 0 <= i < |args| :: PlainExpr(args[i], v)
    case Binary(l, _, r) => PlainExpr(l, v) && PlainExpr(r, v)
    case Unary(_, o) => PlainExpr(o, v)
    case Case(subject, arms, otherwise) =>
      && (subject.Some? ==> PlainExpr(subject.value, v))
      && (forall i | 0 <= i < |arms| :: PlainExpr(arms[i].condition, v) && PlainExpr(arms[i].result, v))
      && (otherwise.Some? ==> PlainExpr(otherwise.value, v))
    case Aggregate(_, _, arg) => arg.Some? ==> PlainExpr(arg.value, v)
    case ListExpr(items) => forall i | 0 <= i < |items| :: PlainExpr(items[i], v)
    case MapExpr(entries) => forall i | 0 <= i < |entries| :: PlainExpr(entries[i].value, v)
    case IsNull(o) => PlainExpr(o, v)
    case IsNotNull(o) => PlainExpr(o, v)
    case In(o, l) => PlainExpr(o, v) && PlainExpr(l, v)
    case _ => true
  }

  /** What the code computes for `v.p`. */
  function Access(r: Record, v: string, p: string, rt: Runtime): Eval
    requires RecordOk(r)
  {
    Evaluate(PropertyAccess(Identifier(v), p), r, rt)
  }

  /** Two rows that answer every plain reference to the variable alike. */
  ghost predicate Agree(r: Record, s: Record, v: string, rt: Runtime) {
    && RecordOk(r) && RecordOk(s) && Get(r, v) == Get(s, v)
    && forall p :: PlainName(p, v) ==> Access(r, v, p, rt) == Access(s, v, p, rt)
  }

  lemma AgreeOnVariable(r: Record, s: Record, v: string, rt: Runtime)
    requires Agree(r, s, v, rt)
    ensures RecordOk(r) && RecordOk(s) && Get(r, v) == Get(s, v)
  {
  }

  lemma AgreeOnProperty(r: Record, s: Record, v: string, p: string, rt: Runtime)
    requires Agree(r, s, v, rt) && PlainName(p, v)
    ensures Evaluate(PropertyAccess(Identifier(v), p), r, rt) == Evaluate(PropertyAccess(Identifier(v), p), s, rt)
  {
    hide Evaluate;
    assert Access(r, v, p, rt) == Access(s, v, p, rt);
  }

  lemma {:induction false} EvaluateAgrees(e: Expression, r: Record, s: Record, v: string, rt: Runtime)
    requires Agree(r, s, v, rt) && PlainExpr(e, v)
    ensures Evaluate(e, r, rt) == Evaluate(e, s, rt)
    decreases e
  {
    hide Agree, Get, EvalBinary, EvalUnary, EvalLiteral, PropertyOf, PlainName;
    AgreeOnVariable(r, s, v, rt);
    match e
    case PropertyAccess(t, p) =>
      if t.Identifier? {
        AgreeOnProperty(r, s, v, p, rt);
      } else {
        EvaluateAgrees(t, r, s, v, rt);
      }
    case FunctionCall(_, args) => EvaluateAllAgrees(args, r, s, v, rt);
    case Binary(left, _, right) =>
      EvaluateAgrees(left, r, s, v, rt);
      EvaluateAgrees(right, r, s, v, rt);
    case Unary(_, o) => EvaluateAgrees(o, r, s, v, rt);
    case Case(subject, arms, otherwise) =>
      match subject {
        case Some(o) =>
          EvaluateAgrees(o, r, s, v, rt);
          if Evaluate(o, r, rt).Success? {
            ArmsAgree(Some(Evaluate(o, r, rt).value), e, 0, r, s, v, rt);
          }
        case None => ArmsAgree(None, e, 0, r, s, v, rt);
      }
    case Aggregate(_, _, arg) => if arg.Some? { EvaluateAgrees(arg.value, r, s, v, rt); }
    case ListExpr(items) => EvaluateAllAgrees(items, r, s, v, rt);
    case MapExpr(entries) => EvaluateEntriesAgrees(entries, r, s, v, rt);
    case IsNull(o) => EvaluateAgrees(o, r, s, v, rt);
    case IsNotNull(o) => EvaluateAgrees(o, r, s, v, rt);
    case In(o, l) =>
      EvaluateAgrees(o, r, s, v, rt);
      EvaluateAgrees(l, r, s, v, rt);
    case _ =>
  }

  lemma {:induction false} EvaluateAllAgrees(es: seq<Expression>, r: Record, s: Record, v: string, rt: Runtime)
    requires Agree(r, s, v, rt) && forall i :: 0 <= i < |es| ==> PlainExpr(es[i], v)
    ensures EvaluateAll(es, r, rt) == EvaluateAll(es, s, rt)
    decreases es
  {
    hide Agree, Evaluate;
    if es != [] {
      EvaluateAgrees(es[0], r, s, v, rt);
      EvaluateAllAgrees(es[1..], r, s, v, rt);
    }
  }

  lemma {:induction false} EvaluateEntriesAgrees(entries: seq<Entry>, r: Record, s: Record, v: string, rt: Runtime)
    requires Agree(r, s, v, rt) && forall i :: 0 <= i < |entries| ==> PlainExpr(entries[i].value, v)
    ensures EvaluateEntries(entries, r, rt) == EvaluateEntries(entries, s, rt)
    decreases entries
  {
    hide Agree, Evaluate;
    if entries != [] {
      var n := |entries| - 1;
      EvaluateEntriesAgrees(entries[..n], r, s, v, rt);
      EvaluateAgrees(entries[n].value, r, s, v, rt);
    }
  }

  lemma {:induction false} ArmsAgree(subject: Option<Value>, c: Expression, i: nat, r: Record, s: Record, v: string,
                                     rt: Runtime)
    requires Agree(r, s, v, rt) && c.Case? && PlainExpr(c, v) && i <= |c.arms|
    ensures EvaluateArms(subject, c, i, r, rt) == EvaluateArms(subject, c, i, s, rt)
    decreases c, |c.arms| - i
  {
    hide Agree, Evaluate;
    if i < |c.arms| {
      EvaluateAgrees(c.arms[i].condition, r, s, v, rt);
      EvaluateAgrees(c.arms[i].result, r, s, v, rt);
      ArmsAgree(subject, c, i + 1, r, s, v, rt);
    } else if c.otherwise.Some? {
      EvaluateAgrees(c.otherwise.value, r, s, v, rt);
    }
  }

  // ----- the rows of a scan agree -----

  function NodeRow(n: Node, v: string, keys: seq<string>, lib: Library): (r: Record)
    ensures RecordOk(r)
  {
    Record(ColumnsFor(Some(v), keys), RowFor(n, Some(v), keys, lib))
  }

  lemma ColumnLayout(v: string, keys: seq<string>, i: nat)
    requires i < |ColumnsFor(Some(v), keys)|
    ensures var c, m := ColumnsFor(Some(v), keys)[i], |keys|;
            && (i == 0 ==> c == NODE_ID) && (i == 1 ==> c == LABELS)
            && (2 <= i < 2 + m ==> c == keys[i - 2]) && (i == 2 + m ==> c == v)
            && (2 + m < i ==> c == Dotted(v, keys[i - 3 - m]))
  {
    hide Dotted;
    var head, tail := [NODE_ID, LABELS] + keys, [v] + DottedKeys(v, keys);
    assert ColumnsFor(Some(v), keys) == head + tail;
  }

  lemma RowLayout(n: Node, v: string, keys: seq<string>, lib: Library, i: nat)
    requires i < |ColumnsFor(Some(v), keys)|
    ensures var x, m := RowFor(n, Some(v), keys, lib)[i], |keys|;
            && (2 <= i < 2 + m ==> x == PropertyOf(NodeValue(n), keys[i - 2])) && (i == 2 + m ==> x == NodeValue(n))
            && (2 + m < i ==> x == PropertyOf(NodeValue(n), keys[i - 3 - m]))
  {
    hide PropertyOf, NodeValue, ColumnsFor;
    var head := [Str(lib.text(n.id)), List(Strings(LabelList(n)))] + PropertyValues(n, keys);
    var tail := [NodeValue(n)] + PropertyValues(n, keys);
    assert RowFor(n, Some(v), keys, lib) == head + tail;
  }

  /** Which column is where. */
  lemma Layout(n: Node, v: string, keys: seq<string>, lib: Library, i: nat)
    requires i < |ColumnsFor(Some(v), keys)|
    ensures var c, x := ColumnsFor(Some(v), keys)[i], RowFor(n, Some(v), keys, lib)[i];
            var m := |keys|;
            && (i == 0 ==> c == NODE_ID) && (i == 1 ==> c == LABELS)
            && (2 <= i < 2 + m ==> c == keys[i - 2] && x == PropertyOf(NodeValue(n), keys[i - 2]))
            && (i == 2 + m ==> c == v && x == NodeValue(n))
            && (2 + m < i ==> c == Dotted(v, keys[i - 3 - m]) && x == PropertyOf(NodeValue(n), keys[i - 3 - m]))
  {
    hide *;
    ColumnLayout(v, keys, i);
    RowLayout(n, v, keys, lib, i);
  }

  lemma DottedApart(v: string, p: string)
    ensures Dotted(v, p) != NODE_ID && Dotted(v, p) != LABELS && Dotted(v, p) != v
    ensures StartsWith(Dotted(v, p), v + ".")
  {
    assert Dotted(v, p)[|v|] == '.';
    assert v + "." + p == Dotted(v, p);
  }

  lemma DottedInjective(v: string, p: string, q: string)
    requires Dotted(v, p) == Dotted(v, q)
    ensures p == q
  {
    assert Dotted(v, p)[|v| + 1..] == p && Dotted(v, q)[|v| + 1..] == q;
  }

  lemma GetVariable(n: Node, v: string, keys: seq<string>, lib: Library)
    requires PlainVariable(v) && PlainKeys(keys, v)
    ensures Get(NodeRow(n, v, keys, lib), v) == Some(NodeValue(n))
  {
    hide ColumnsFor, RowFor, Dotted, NodeValue, StartsWith;
    var columns := ColumnsFor(Some(v), keys);
    forall j | 0 <= j < |keys| ensures keys[j] != v {
      assert keys[j] in keys;
    }
    Layout(n, v, keys, lib, 2 + |keys|);
    assert v in columns;
    var i := Position(columns, v).value;
    Layout(n, v, keys, lib, i);
  }

  lemma GetDotted(n: Node, v: string, keys: seq<string>, lib: Library, p: string)
    requires PlainKeys(keys, v)
    ensures Get(NodeRow(n, v, keys, lib), Dotted(v, p)) ==
              if p in keys then Some(PropertyOf(NodeValue(n), p)) else None
  {
    hide ColumnsFor, RowFor, Dotted, NodeValue, PropertyOf;
    var columns := ColumnsFor(Some(v), keys);
    DottedApart(v, p);
    forall j | 0 <= j < |keys| ensures keys[j] != Dotted(v, p) {
      assert keys[j] in keys;
    }
    match Position(columns, Dotted(v, p))
    case Some(i) =>
      Layout(n, v, keys, lib, i);
      if i > 2 + |keys| {
        DottedInjective(v, p, keys[i - 3 - |keys|]);
      }
    case None =>
      if p in keys {
        var j :| 0 <= j < |keys| && keys[j] == p;
        Layout(n, v, keys, lib, 3 + |keys| + j);
        assert columns[3 + |keys| + j] in columns;
      }
  }

  lemma GetBare(n: Node, v: string, keys: seq<string>, lib: Library, p: string)
    requires PlainName(p, v)
    ensures Get(NodeRow(n, v, keys, lib), p) == if p in keys then Some(PropertyOf(NodeValue(n), p)) else None
  {
    hide ColumnsFor, RowFor, Dotted, NodeValue, PropertyOf;
    var columns := ColumnsFor(Some(v), keys);
    match Position(columns, p)
    case Some(i) =>
      Layout(n, v, keys, lib, i);
      if 2 + |keys| < i {
        DottedApart(v, keys[i - 3 - |keys|]);
      }
    case None =>
      if p in keys {
        var j :| 0 <= j < |keys| && keys[j] == p;
        Layout(n, v, keys, lib, 2 + j);
        assert columns[2 + j] in columns;
      }
  }

  /** How `v.p` is read off a row: by its dotted name, then by its bare name, then from the variable's value. */
  lemma AccessStep(r: Record, v: string, p: string, rt: Runtime)
    requires RecordOk(r)
    ensures Access(r, v, p, rt) ==
              match Get(r, Dotted(v, p))
              case Some(x) => Success(x)
              case None =>
                match Get(r, p)
                case Some(x) => Success(x)
                case None => match Get(r, v) case Some(x) => Success(PropertyOf(x, p)) case None => Failure(UnknownIdentifier)
  {
    hide Get, PropertyOf;
    assert Evaluate(Identifier(v), r, rt) ==
           match Get(r, v) case Some(x) => Success(x) case None => Failure(UnknownIdentifier);
  }

  /** A plain property of the variable is the node's property, or null, whatever columns there are. */
  lemma AccessIsProperty(n: Node, v: string, keys: seq<string>, lib: Library, p: string)
    requires PlainVariable(v) && PlainKeys(keys, v) && PlainName(p, v)
    ensures Access(NodeRow(n, v, keys, lib), v, p, lib.rt) == Success(PropertyOf(NodeValue(n), p))
  {
    hide Get, NodeRow, PropertyOf, NodeValue, PlainName;
    GetVariable(n, v, keys, lib);
    GetDotted(n, v, keys, lib, p);
    GetBare(n, v, keys, lib, p);
    AccessStep(NodeRow(n, v, keys, lib), v, p, lib.rt);
  }

  lemma RowsAgree(n: Node, v: string, a: seq<string>, b: seq<string>, lib: Library)
    requires PlainVariable(v) && PlainKeys(a, v) && PlainKeys(b, v)
    ensures Agree(NodeRow(n, v, a, lib), NodeRow(n, v, b, lib), v, lib.rt)
  {
    hide NodeRow, PropertyOf, NodeValue, PlainName, Access, Get;
    GetVariable(n, v, a, lib);
    GetVariable(n, v, b, lib);
    forall p | PlainName(p, v)
      ensures Access(NodeRow(n, v, a, lib), v, p, lib.rt) == Access(NodeRow(n, v, b, lib), v, p, lib.rt)
    {
      AccessIsProperty(n, v, a, lib, p);
      AccessIsProperty(n, v, b, lib, p);
    }
  }

  /** What the expression means for a node. */
  function Meaning(e: Expression, n: Node, v: string, lib: Library): Eval {
    Evaluate(e, NodeRow(n, v, [], lib), lib.rt)
  }

  /** The value of a plain expression does not depend on the property columns. */
  lemma ColumnsIrrelevant(e: Expression, n: Node, v: string, keys: seq<string>, lib: Library)
    requires PlainVariable(v) && PlainKeys(keys, v) && PlainExpr(e, v)
    ensures Evaluate(e, NodeRow(n, v, keys, lib), lib.rt) == Meaning(e, n, v, lib)
  {
    hide NodeRow, Agree, Evaluate, PlainExpr;
    RowsAgree(n, v, keys, [], lib);
    EvaluateAgrees(e, NodeRow(n, v, keys, lib), NodeRow(n, v, [], lib), v, lib.rt);
  }
}
