/**
 Why the index scan selects the nodes the filtered scan selects: three-valued,
 short-circuiting conjunctions under reordering, one node at a time.
 */
module RewriteMeaning {
  import opened Bytes
  import opened Wrappers
  import opened Values
  import opened ValueCodec
  import opened Syntax
  import opened Expressions
  import opened GraphKeys
  import opened PropertyIndex
  import opened Plans
  import opened PatternRows
  import opened IndexRewrite

  // ----- verdicts of conjunctions -----

  /** What a conjunct does to a conjunction: ends it with an error, ends it as false, or neither. */
  datatype Verdict = Fails | Falsey | Truthy | Unknown

  function VerdictOf(r: Eval): Verdict {
    match r
    case Failure(_) => Fails
    case Success(x) => if x == Bool(false) then Falsey else if x == Bool(true) then Truthy else Unknown
  }

  /** The first part that fails or is false decides; otherwise all must be true. */
  function Join(a: Verdict, b: Verdict): Verdict {
    match a
    case Fails => Fails
    case Falsey => Falsey
    case Truthy => b
    case Unknown => if b.Truthy? then Unknown else b
  }

  function Judge(e: Expression, n: Node, v: string, lib: Library): Verdict {
    VerdictOf(Meaning(e, n, v, lib))
  }

  function JudgeAll(es: seq<Expression>, n: Node, v: string, lib: Library): Verdict {
    if es == [] then Truthy else Join(Judge(es[0], n, v, lib), JudgeAll(es[1..], n, v, lib))
  }

  lemma {:induction false} JudgeConcat(a: seq<Expression>, b: seq<Expression>, n: Node, v: string, lib: Library)
    ensures JudgeAll(a + b, n, v, lib) == Join(JudgeAll(a, n, v, lib), JudgeAll(b, n, v, lib))
  {
    hide Judge;
    if a == [] {
      assert a + b == b;
    } else {
      assert (a + b)[0] == a[0] && (a + b)[1..] == a[1..] + b;
      JudgeConcat(a[1..], b, n, v, lib);
    }
  }

  lemma JudgeOne(e: Expression, n: Node, v: string, lib: Library)
    ensures JudgeAll([e], n, v, lib) == Judge(e, n, v, lib)
  {
    hide Judge;
    assert [e][1..] == [];
  }

  /** AND evaluates to the join of its operands. */
  lemma JudgeAnd(a: Expression, b: Expression, n: Node, v: string, lib: Library)
    ensures Judge(Expression.Binary(a, And, b), n, v, lib) == Join(Judge(a, n, v, lib), Judge(b, n, v, lib))
  {
    hide NodeRow;
  }

  /** Any nesting of ANDs is judged as the list of its conjuncts. */
  lemma {:induction false} JudgeConjuncts(e: Expression, n: Node, v: string, lib: Library)
    ensures Judge(e, n, v, lib) == JudgeAll(Conjuncts(e), n, v, lib)
    decreases e
  {
    hide Judge, JudgeAll;
    if e.Binary? && e.op.And? {
      JudgeAnd(e.left, e.right, n, v, lib);
      JudgeConjuncts(e.left, n, v, lib);
      JudgeConjuncts(e.right, n, v, lib);
      JudgeConcat(Conjuncts(e.left), Conjuncts(e.right), n, v, lib);
    } else {
      JudgeOne(e, n, v, lib);
    }
  }

  lemma {:induction false} JudgeConjoined(parts: seq<Expression>, n: Node, v: string, lib: Library)
    requires parts != []
    ensures Conjoin(parts).Some? && Judge(Conjoin(parts).value, n, v, lib) == JudgeAll(parts, n, v, lib)
  {
    hide Judge, JudgeAll;
    var k := |parts| - 1;
    assert parts == parts[..k] + [parts[k]];
    JudgeOne(parts[k], n, v, lib);
    if k > 0 {
      JudgeConjoined(parts[..k], n, v, lib);
      JudgeAnd(Conjoin(parts[..k]).value, parts[k], n, v, lib);
      JudgeConcat(parts[..k], [parts[k]], n, v, lib);
    } else {
      assert parts[..0] == [];
    }
  }

  // ----- equality conjuncts -----

  /** A literal with a value: everything the parser makes a literal of. */
  predicate Evaluable(e: Expression) {
    e.Lit? && EvalLiteral(e.lit).Success?
  }

  function LiteralValue(e: Expression): Value
    requires Evaluable(e)
  {
    EvalLiteral(e.lit).value
  }

  /** The equality holds of the node. */
  predicate Holds(q: EqPredicate, n: Node)
    requires Evaluable(q.value)
  {
    ValueEq(PropertyOf(NodeValue(n), q.property), LiteralValue(q.value))
  }

  function JudgeEquality(q: EqPredicate, n: Node): Verdict
    requires Evaluable(q.value)
  {
    if Holds(q, n) then Truthy else Falsey
  }

  ghost predicate AllEvaluable(eqs: seq<EqPredicate>) {
    forall i :: 0 <= i < |eqs| ==> Evaluable(eqs[i].value)
  }

  function JudgeEqualities(eqs: seq<EqPredicate>, n: Node): Verdict
    requires AllEvaluable(eqs)
  {
    if eqs == [] then Truthy else Join(JudgeEquality(eqs[0], n), JudgeEqualities(eqs[1..], n))
  }

  /** The derived equality is symmetric, floats inside composite values included. */
  lemma {:induction false} ValueEqSymmetric(x: Value, y: Value)
    ensures ValueEq(x, y) == ValueEq(y, x)
    decreases x, 1
  {
    if x.List? && y.List? {
      ItemsSymmetric(x.items, y.items);
    } else if x.Map? && y.Map? {
      PropsSymmetric(x, y);
      MapsAlike(x.entries, y.entries);
      MapsAlike(y.entries, x.entries);
    } else if x.NodeVal? && y.NodeVal? {
      PropsSymmetric(x, y);
    } else if x.EdgeVal? && y.EdgeVal? {
      PropsSymmetric(x, y);
    }
  }

  lemma {:induction false} ItemsSymmetric(a: seq<Value>, b: seq<Value>)
    ensures |a| == |b| ==> forall i :: 0 <= i < |a| ==> ValueEq(a[i], b[i]) == ValueEq(b[i], a[i])
    decreases a, 0
  {
    hide ValueEq;
    if |a| == |b| {
      forall i | 0 <= i < |a| ensures ValueEq(a[i], b[i]) == ValueEq(b[i], a[i]) {
        ValueEqSymmetric(a[i], b[i]);
      }
    }
  }

  predicate Alike(m: Props, n: Props) {
    m.Keys == n.Keys && forall k :: k in m ==> ValueEq(m[k], n[k])
  }

  lemma {:induction false} MapsAlike(m: Props, n: Props)
    ensures ValueEq(Map(m), Map(n)) <==> Alike(m, n)
  {
  }

  predicate HasProps(v: Value) {
    v.Map? || v.NodeVal? || v.EdgeVal?
  }

  function PropsOf(v: Value): (m: Props)
    requires HasProps(v)
    ensures forall k :: k in m ==> m[k] < v
  {
    if v.Map? then v.entries else if v.NodeVal? then v.nodeProps else v.edgeProps
  }

  lemma {:induction false} PropsSymmetric(x: Value, y: Value)
    requires HasProps(x) && HasProps(y)
    ensures Alike(PropsOf(x), PropsOf(y)) == Alike(PropsOf(y), PropsOf(x))
    decreases x, 0
  {
    hide ValueEq, PropsOf;
    var m, n := PropsOf(x), PropsOf(y);
    if m.Keys == n.Keys {
      forall k | k in m ensures ValueEq(m[k], n[k]) == ValueEq(n[k], m[k]) {
        ValueEqSymmetric(m[k], n[k]);
      }
    }
  }

  lemma AccessMeaning(p: string, n: Node, v: string, lib: Library)
    requires PlainVariable(v) && PlainName(p, v)
    ensures Meaning(PropertyAccess(Identifier(v), p), n, v, lib) == Success(PropertyOf(NodeValue(n), p))
  {
    hide NodeRow, PlainName, PropertyOf, Evaluate;
    AccessIsProperty(n, v, [], lib, p);
  }

  /** A plain property equated with a literal that has a value, either way round, is true or false and never fails. */
  lemma EqualityMeaning(e: Expression, n: Node, v: string, lib: Library)
    requires PlainVariable(v) && PlainExpr(e, v)
    requires AsEquality(e, Some(v)).Some? && Evaluable(AsEquality(e, Some(v)).value.value)
    ensures PlainName(AsEquality(e, Some(v)).value.property, v)
    ensures Judge(e, n, v, lib) == JudgeEquality(AsEquality(e, Some(v)).value, n)
  {
    hide NodeRow, PlainName, PropertyOf, EvalLiteral, ValueEq, NodeValue;
    var q := AsEquality(e, Some(v)).value;
    PlainIdentifier(v);
    var access := PropertyAccess(Identifier(v), q.property);
    AccessMeaning(q.property, n, v, lib);
    ValueEqSymmetric(PropertyOf(NodeValue(n), q.property), LiteralValue(q.value));
    EqualityStep(e, n, v, lib);
  }

  /** The variable itself is not taken for one of its dotted columns. */
  lemma PlainIdentifier(v: string)
    ensures !StartsWith(v, v + ".")
  {
  }

  lemma EqualityStep(e: Expression, n: Node, v: string, lib: Library)
    requires e.Binary? && e.op.Eq?
    ensures Meaning(e, n, v, lib) ==
              match (Meaning(e.left, n, v, lib), Meaning(e.right, n, v, lib))
              case (Success(a), Success(b)) => Success(Bool(ValueEq(a, b)))
              case (Failure(error), _) => Failure(error)
              case (_, Failure(error)) => Failure(error)
  {
    hide NodeRow, ValueEq;
  }

  lemma LiteralMeaning(e: Expression, n: Node, v: string, lib: Library)
    requires e.Lit?
    ensures Meaning(e, n, v, lib) == EvalLiteral(e.lit)
  {
    hide NodeRow, EvalLiteral;
  }

  lemma RebuiltMeaning(q: EqPredicate, n: Node, v: string, lib: Library)
    requires PlainVariable(v) && PlainName(q.property, v) && Evaluable(q.value)
    ensures PlainExpr(Rebuild(Some(v), q), v)
    ensures Judge(Rebuild(Some(v), q), n, v, lib) == JudgeEquality(q, n)
  {
    hide NodeRow, PlainName, PropertyOf, EvalLiteral, ValueEq, NodeValue, Meaning;
    AccessMeaning(q.property, n, v, lib);
    EqualityStep(Rebuild(Some(v), q), n, v, lib);
    LiteralMeaning(q.value, n, v, lib);
  }

  // ----- reordering -----

  ghost predicate AllPlain(es: seq<Expression>, v: string) {
    forall i :: 0 <= i < |es| ==> PlainExpr(es[i], v)
  }

  lemma {:induction false} NeverFails(eqs: seq<EqPredicate>, n: Node)
    requires AllEvaluable(eqs)
    ensures JudgeEqualities(eqs, n).Truthy? || JudgeEqualities(eqs, n).Falsey?
  {
    hide Evaluable, Holds;
    if eqs != [] {
      NeverFails(eqs[1..], n);
    }
  }

  /** Moving the equalities in front of the other conjuncts can only avoid errors, and keeps what is true true. */
  lemma {:induction false} Reordered(es: seq<Expression>, n: Node, v: string, lib: Library)
    requires PlainVariable(v) && AllPlain(es, v) && AllEvaluable(Equalities(es, Some(v)))
    ensures var before := JudgeAll(es, n, v, lib);
            var after := Join(JudgeEqualities(Equalities(es, Some(v)), n), JudgeAll(Others(es, Some(v)), n, v, lib));
            !before.Fails? ==> !after.Fails? && (after.Truthy? <==> before.Truthy?)
  {
    hide Evaluable, Judge, JudgeEquality, PlainExpr, AsEquality;
    if es == [] {
      assert Equalities(es, Some(v)) == [] && Others(es, Some(v)) == [];
    } else {
      var eqs, rest := Equalities(es, Some(v)), Equalities(es[1..], Some(v));
      var others, others' := Others(es, Some(v)), Others(es[1..], Some(v));
      match AsEquality(es[0], Some(v)) {
        case Some(q) =>
          assert eqs[0] == q && eqs[1..] == rest && others == others';
          AllEvaluableTail(eqs);
          EqualityMeaning(es[0], n, v, lib);
        case None =>
          assert eqs == rest && others[0] == es[0] && others[1..] == others';
      }
      NeverFails(rest, n);
      Reordered(es[1..], n, v, lib);
    }
  }

  lemma AllEvaluableTail(eqs: seq<EqPredicate>)
    requires eqs != [] && AllEvaluable(eqs)
    ensures Evaluable(eqs[0].value) && AllEvaluable(eqs[1..])
  {
    hide Evaluable;
  }

  // ----- the equalities the index answers -----

  ghost predicate AllHold(eqs: seq<EqPredicate>, used: seq<nat>, n: Node)
    requires AllEvaluable(eqs) && Indices(used, |eqs|)
  {
    forall j :: 0 <= j < |used| ==> Holds(eqs[used[j]], n)
  }

  lemma {:induction false} OneFalse(eqs: seq<EqPredicate>, i: nat, n: Node)
    requires AllEvaluable(eqs) && i < |eqs| && !Holds(eqs[i], n)
    ensures JudgeEqualities(eqs, n).Falsey?
  {
    hide Evaluable, Holds;
    if i > 0 {
      assert eqs[1..][i - 1] == eqs[i];
      OneFalse(eqs[1..], i - 1, n);
    }
  }

  ghost predicate PlainEqualities(eqs: seq<EqPredicate>, v: string) {
    forall i :: 0 <= i < |eqs| ==> PlainName(eqs[i].property, v)
  }

  /** Leaving out equalities that hold does not change the verdict. */
  lemma {:induction false} UnusedJudged(eqs: seq<EqPredicate>, used: seq<nat>, from: nat, n: Node, v: string, lib: Library)
    requires PlainVariable(v) && PlainEqualities(eqs, v) && AllEvaluable(eqs) && from <= |eqs|
    requires Indices(used, |eqs|) && AllHold(eqs, used, n)
    ensures JudgeAll(Unused(eqs, used, from, Some(v)), n, v, lib) == JudgeEqualities(eqs[from..], n)
    decreases |eqs| - from
  {
    hide Evaluable, Judge, Rebuild, Holds, PlainName;
    if from < |eqs| {
      UnusedJudged(eqs, used, from + 1, n, v, lib);
      assert eqs[from..][0] == eqs[from] && eqs[from..][1..] == eqs[from + 1..];
      var parts, rest := Unused(eqs, used, from, Some(v)), Unused(eqs, used, from + 1, Some(v));
      if from in used {
        var j :| 0 <= j < |used| && used[j] == from;
        assert Holds(eqs[used[j]], n);
        assert parts == rest;
      } else {
        RebuiltMeaning(eqs[from], n, v, lib);
        assert parts[0] == Rebuild(Some(v), eqs[from]) && parts[1..] == rest;
      }
    }
  }

  function RemainingParts(e: Expression, used: seq<nat>, v: string): seq<Expression> {
    Unused(Equalities(Conjuncts(e), Some(v)), used, 0, Some(v)) + Others(Conjuncts(e), Some(v))
  }

  /** The predicate reads only the variable's plain properties, and the literals it equates them with have values. */
  ghost predicate RewritablePredicate(e: Expression, v: string) {
    PlainVariable(v) && PlainExpr(e, v) && AllEvaluable(Equalities(Conjuncts(e), Some(v)))
  }

  lemma {:induction false} ConjunctsPlain(e: Expression, v: string)
    requires PlainExpr(e, v)
    ensures AllPlain(Conjuncts(e), v)
    decreases e
  {
    if e.Binary? && e.op.And? {
      ConjunctsPlain(e.left, v);
      ConjunctsPlain(e.right, v);
      hide PlainExpr, Conjuncts;
    }
  }

  lemma {:induction false} EqualitiesPlain(es: seq<Expression>, v: string)
    requires AllPlain(es, v)
    ensures PlainEqualities(Equalities(es, Some(v)), v)
  {
    if es != [] {
      EqualitiesPlain(es[1..], v);
      if AsEquality(es[0], Some(v)).Some? {
        EqualityPlain(es[0], v);
      }
      hide AsEquality, PlainExpr, PlainName;
    }
  }

  lemma EqualityPlain(e: Expression, v: string)
    requires PlainExpr(e, v) && AsEquality(e, Some(v)).Some?
    ensures PlainName(AsEquality(e, Some(v)).value.property, v)
  {
    hide PlainName;
    PlainIdentifier(v);
  }

  /**
   One node under the rewrite, where its filter does not fail: if one of the
   looked-up equalities does not hold, the node was not selected; if all do,
   what remains does not fail and selects it exactly when the filter does.
   */
  lemma NodeUnderRewrite(e: Expression, used: seq<nat>, n: Node, v: string, lib: Library)
    requires RewritablePredicate(e, v) && Indices(used, |Equalities(Conjuncts(e), Some(v))|)
    requires !Judge(e, n, v, lib).Fails?
    ensures var remaining := JudgeAll(RemainingParts(e, used, v), n, v, lib);
            if AllHold(Equalities(Conjuncts(e), Some(v)), used, n)
            then !remaining.Fails? && (remaining.Truthy? <==> Judge(e, n, v, lib).Truthy?)
            else !Judge(e, n, v, lib).Truthy?
  {
    var es := Conjuncts(e);
    var eqs := Equalities(es, Some(v));
    JudgeConjuncts(e, n, v, lib);
    ConjunctsPlain(e, v);
    EqualitiesPlain(es, v);
    Reordered(es, n, v, lib);
    hide Judge, JudgeAll, JudgeEqualities, Evaluable, PlainExpr, Conjuncts, Equalities, Others, Unused, Holds, PlainName;
    if AllHold(eqs, used, n) {
      UnusedJudged(eqs, used, 0, n, v, lib);
      assert eqs[0..] == eqs;
      JudgeConcat(Unused(eqs, used, 0, Some(v)), Others(es, Some(v)), n, v, lib);
    } else {
      var j :| 0 <= j < |used| && !Holds(eqs[used[j]], n);
      OneFalse(eqs, used[j], n);
    }
  }
}
