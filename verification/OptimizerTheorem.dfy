/**
 The optimizer preserves meaning: where a pipeline over a filtered scan of one
 named variable succeeds, the optimized pipeline succeeds with the same nodes
 in the same order, and after a projection with the very same result.
 */
module OptimizerTheorem {
  import opened Bytes
  import opened OrderedStore
  import opened Wrappers
  import opened Values
  import opened ValueCodec
  import opened Syntax
  import opened Expressions
  import opened GraphKeys
  import opened GraphStore
  import opened PropertyIndex
  import opened IndexScans
  import opened Plans
  import opened PatternRows
  import opened PlanEquivalence
  import opened IndexRewrite
  import opened RewriteMeaning
  import opened LookupAnswers

  // ----- the looked-up literals -----

  lemma {:induction false} LiteralsEvaluate(es: seq<Expression>, rt: Runtime)
    requires forall i :: 0 <= i < |es| ==> Evaluable(es[i])
    ensures EvaluateAll(es, EMPTY_ROW, rt).Success?
    ensures var vs := EvaluateAll(es, EMPTY_ROW, rt).value;
            |vs| == |es| && forall i :: 0 <= i < |es| ==> vs[i] == LiteralValue(es[i])
  {
    hide EvalLiteral;
    if es != [] {
      assert Evaluate(es[0], EMPTY_ROW, rt) == EvalLiteral(es[0].lit);
      LiteralsEvaluate(es[1..], rt);
    }
  }

  // ----- lists of nodes -----

  lemma {:induction false} SelectConcat(a: seq<Node>, b: seq<Node>, wanted: Node -> bool)
    ensures Select(a + b, wanted) == Select(a, wanted) + Select(b, wanted)
  {
    if a == [] {
      assert a + b == b;
    } else {
      assert (a + b)[0] == a[0] && (a + b)[1..] == a[1..] + b;
      SelectConcat(a[1..], b, wanted);
      var head := if wanted(a[0]) then [a[0]] else [];
      assert head + (Select(a[1..], wanted) + Select(b, wanted)) == head + Select(a[1..], wanted) + Select(b, wanted);
    }
  }

  /** Selecting twice is selecting by both; predicates that agree on the list select alike. */
  lemma {:induction false} SelectTwice(list: seq<Node>, p: Node -> bool, q: Node -> bool, both: Node -> bool)
    requires forall n :: n in list ==> (both(n) <==> p(n) && q(n))
    ensures Select(Select(list, p), q) == Select(list, both)
  {
    if list != [] {
      assert list[0] in list;
      assert forall n :: n in list[1..] ==> n in list;
      SelectTwice(list[1..], p, q, both);
      var first := Select(list, p);
      assert first == (if p(list[0]) then [list[0]] else []) + Select(list[1..], p);
      if p(list[0]) {
        assert first[0] == list[0] && first[1..] == Select(list[1..], p);
      } else {
        assert first == Select(list[1..], p);
      }
    }
  }

  lemma {:induction false} SelectAll(list: seq<Node>, p: Node -> bool)
    requires forall n :: n in list ==> p(n)
    ensures Select(list, p) == list
  {
    if list != [] {
      assert list[0] in list;
      SelectAll(list[1..], p);
    }
  }

  /** Loading nodes by id gives those with all labels, in order. */
  lemma {:induction false} LoadsSelected(nodes: NodeTable, graphId: Uuid, ids: seq<Uuid>, list: seq<Node>,
                                         labels: seq<string>)
    requires |ids| == |list|
    requires forall i :: 0 <= i < |list| ==>
               ids[i] == list[i].id && NodeKey(graphId, ids[i]) in nodes && nodes[NodeKey(graphId, ids[i])] == list[i]
    ensures LoadAll(nodes, graphId, ids, labels) == Select(list, (n: Node) => HasAllLabels(n, labels))
  {
    hide NodeKey, HasAllLabels;
    if list != [] {
      LoadsSelected(nodes, graphId, ids[1..], list[1..], labels);
    }
  }

  /** The label index of the scan's only label returns no node by a colliding label. */
  ghost predicate LabelsApart(nodes: NodeTable, graphId: Uuid, labels: seq<string>) {
    |labels| == 1 ==> forall n :: n in NodesOf(nodes, graphId) && HasLabelKey(n, labels[0]) ==> labels[0] in n.labels
  }

  /** A scan lists the nodes that have all labels. */
  lemma ScanSelects(nodes: NodeTable, graphId: Uuid, labels: seq<string>)
    requires LabelsApart(nodes, graphId, labels)
    ensures ScannedNodes(nodes, graphId, labels) == Select(NodesOf(nodes, graphId), (n: Node) => HasAllLabels(n, labels))
  {
    hide NodesOf, HasLabelKey, HasAllLabels, WithLabel, Select;
    var all := NodesOf(nodes, graphId);
    if labels == [] {
      NoLabels(all, labels);
    } else {
      if |labels| == 1 {
        OneLabel(all, labels);
      } else {
        ManyLabels(all, labels);
      }
    }
  }

  lemma NoLabels(list: seq<Node>, labels: seq<string>)
    requires labels == []
    ensures Select(list, (n: Node) => HasAllLabels(n, labels)) == list
  {
    hide Select;
    SelectAll(list, (n: Node) => HasAllLabels(n, labels));
  }

  lemma OneLabel(list: seq<Node>, labels: seq<string>)
    requires |labels| == 1 && forall n :: n in list && HasLabelKey(n, labels[0]) ==> labels[0] in n.labels
    ensures WithLabel(list, labels[0]) == Select(list, (n: Node) => HasAllLabels(n, labels))
  {
    hide Select, HasLabelKey;
    var wanted := (n: Node) => HasAllLabels(n, labels);
    forall n | n in list ensures HasLabelKey(n, labels[0]) <==> HasAllLabels(n, labels) {
      if HasAllLabels(n, labels) {
        assert labels[0] in labels;
        OwnLabelKey(n, labels[0]);
      }
    }
    SelectTwice(list, (n: Node) => HasLabelKey(n, labels[0]), wanted, wanted);
    WithLabelExactly(list, labels[0]);
    SelectAll(WithLabel(list, labels[0]), wanted);
  }

  lemma ManyLabels(list: seq<Node>, labels: seq<string>)
    requires labels != []
    ensures Select(WithLabel(list, labels[0]), (n: Node) => HasAllLabels(n, labels)) ==
              Select(list, (n: Node) => HasAllLabels(n, labels))
  {
    hide Select, HasLabelKey;
    var wanted := (n: Node) => HasAllLabels(n, labels);
    forall n | HasAllLabels(n, labels) ensures HasLabelKey(n, labels[0]) {
      assert labels[0] in labels;
      OwnLabelKey(n, labels[0]);
    }
    SelectTwice(list, (n: Node) => HasLabelKey(n, labels[0]), wanted, wanted);
  }

  lemma OwnLabelKey(n: Node, name: string)
    requires name in n.labels
    ensures HasLabelKey(n, name)
  {
    hide EncodeLabel;
  }

  // ----- filters as verdicts -----

  /** The nodes with a true verdict, unless some verdict is a failure. */
  function KeptBy(list: seq<Node>, judge: Node -> Verdict): Option<seq<Node>> {
    if list == [] then Some([])
    else
      var n := |list| - 1;
      match KeptBy(list[..n], judge)
      case None => None
      case Some(before) =>
        match judge(list[n])
        case Fails => None
        case Truthy => Some(before + [list[n]])
        case _ => Some(before)
  }

  lemma {:induction false} KeptIsKeptBy(list: seq<Node>, e: Expression, v: string, lib: Library)
    ensures Kept(list, e, v, lib).Success? <==> KeptBy(list, n => Judge(e, n, v, lib)).Some?
    ensures Kept(list, e, v, lib).Success? ==> Kept(list, e, v, lib).value == KeptBy(list, n => Judge(e, n, v, lib)).value
  {
    hide Meaning;
    if list != [] {
      KeptIsKeptBy(list[..|list| - 1], e, v, lib);
    }
  }

  lemma {:induction false} AllKept(list: seq<Node>, judge: Node -> Verdict)
    requires forall n :: judge(n) == Truthy
    ensures KeptBy(list, judge) == Some(list)
  {
    if list != [] {
      var n := |list| - 1;
      assert list == list[..n] + [list[n]];
      AllKept(list[..n], judge);
    }
  }

  /**
   Narrowing the nodes first and judging them otherwise keeps the same nodes,
   if the narrowing loses no true one and the new verdict agrees on the rest.
   */
  lemma {:induction false} NarrowedKept(list: seq<Node>, wide: Node -> bool, narrow: Node -> bool, judge: Node -> Verdict,
                                        judge': Node -> Verdict)
    requires KeptBy(Select(list, wide), judge).Some?
    requires forall n :: n in list && narrow(n) ==> wide(n)
    requires forall n :: n in list && wide(n) && !narrow(n) && !judge(n).Fails? ==> !judge(n).Truthy?
    requires forall n :: n in list && narrow(n) && !judge(n).Fails? ==>
               !judge'(n).Fails? && (judge'(n).Truthy? <==> judge(n).Truthy?)
    ensures KeptBy(Select(list, narrow), judge') == KeptBy(Select(list, wide), judge)
  {
    hide Select, KeptBy;
    if list == [] {
      NothingKept(wide, judge);
      NothingKept(narrow, judge');
    } else {
      var k := |list| - 1;
      var n := list[k];
      assert list == list[..k] + [n] && n in list;
      assert forall x :: x in list[..k] ==> x in list;
      SelectConcat(list[..k], [n], wide);
      SelectConcat(list[..k], [n], narrow);
      SelectLast(n, wide);
      SelectLast(n, narrow);
      KeptStep(Select(list[..k], wide), n, judge);
      KeptStep(Select(list[..k], narrow), n, judge');
      NarrowedKept(list[..k], wide, narrow, judge, judge');
    }
  }

  lemma {:induction false} KeptMembers(list: seq<Node>, judge: Node -> Verdict)
    requires KeptBy(list, judge).Some?
    ensures forall n :: n in list ==> !judge(n).Fails?
    ensures forall n :: n in KeptBy(list, judge).value <==> n in list && judge(n).Truthy?
  {
    if list != [] {
      var k := |list| - 1;
      assert list == list[..k] + [list[k]];
      KeptMembers(list[..k], judge);
    }
  }

  lemma NoneFail(list: seq<Node>, wide: Node -> bool, judge: Node -> Verdict)
    requires KeptBy(Select(list, wide), judge).Some?
    ensures forall n :: n in list && wide(n) ==> !judge(n).Fails?
  {
    hide Select, KeptBy, StrictlySorted;
    SelectMembers(list, wide);
    KeptMembers(Select(list, wide), judge);
  }

  /** Where the same nodes are kept, the narrowing lost no true one and the new verdict agrees on the rest. */
  lemma NarrowedAgree(list: seq<Node>, wide: Node -> bool, narrow: Node -> bool, judge: Node -> Verdict,
                      judge': Node -> Verdict)
    requires KeptBy(Select(list, wide), judge).Some?
    requires KeptBy(Select(list, narrow), judge') == KeptBy(Select(list, wide), judge)
    ensures forall n :: n in list && wide(n) && !narrow(n) ==> !judge(n).Truthy?
    ensures forall n :: n in list && wide(n) && narrow(n) ==>
              !judge'(n).Fails? && (judge'(n).Truthy? <==> judge(n).Truthy?)
  {
    hide Select, KeptBy, StrictlySorted;
    SelectMembers(list, wide);
    SelectMembers(list, narrow);
    KeptMembers(Select(list, wide), judge);
    KeptMembers(Select(list, narrow), judge');
  }

  lemma NothingKept(wanted: Node -> bool, judge: Node -> Verdict)
    ensures KeptBy(Select([], wanted), judge) == Some([])
  {
  }

  lemma SelectLast(n: Node, wanted: Node -> bool)
    ensures Select([n], wanted) == if wanted(n) then [n] else []
  {
    assert [n][1..] == [];
  }

  lemma KeptStep(list: seq<Node>, n: Node, judge: Node -> Verdict)
    ensures list + [] == list
    ensures KeptBy(list + [n], judge) ==
              match KeptBy(list, judge)
              case None => None
              case Some(before) => if judge(n).Fails? then None else Some(if judge(n).Truthy? then before + [n] else before)
  {
    assert (list + [n])[..|list|] == list;
  }

  // ----- the rewrite -----

  /** The property keys of the graph's nodes. */
  ghost function StoredKeys(db: Database): set<string> {
    KeysOfNodes(NodesOf(db.nodes, db.graphId))
  }

  /** The store is well formed: metadata and entries under their keys, nodes under theirs. */
  ghost predicate StoreOk(db: Database) {
    FamilyOk(db.family, db.env) && EnvOk(db.env) && NodesKeyed(db.nodes)
  }

  /** The values the covering equalities look up. */
  function Sought(eqs: seq<EqPredicate>, used: seq<nat>): (r: seq<Value>)
    requires AllEvaluable(eqs) && Indices(used, |eqs|)
    ensures |r| == |used| && forall j :: 0 <= j < |used| ==> r[j] == LiteralValue(eqs[used[j]].value)
  {
    seq(|used|, j requires 0 <= j < |used| => LiteralValue(eqs[used[j]].value))
  }

  /** The nodes an index scan starts from are those its lookup matches and that have all labels, in scan order. */
  lemma CandidatesSelected(db: Database, def: IndexDefinition, values: seq<Value>, labels: seq<string>)
    requires EnvOk(db.env) && NodesKeyed(db.nodes) && Coherent(db.family, def, db.nodes, db.env)
    requires def.graphId == db.graphId && |values| == |def.propertyNames|
    ensures LoadAll(db.nodes, db.graphId, IdsIn(LookupKeys(db.family, def, values, db.env)), labels) ==
              Select(NodesOf(db.nodes, db.graphId), (n: Node) =>
                Matches(def, EncodeValues(values, db.env.codec), db.env, n) && HasAllLabels(n, labels))
  {
    hide EnvOk, NodesKeyed, Coherent, LookupKeys, EncodeValues, Matches, HasAllLabels, Select, NodeKey, Covered,
      NodesOf, LoadAll;
    var encoded := EncodeValues(values, db.env.codec);
    var list := MatchingNodes(db.nodes, def, encoded, db.env);
    LookupExact(db.family, def, db.nodes, db.env, values);
    var ids := IdsIn(LookupKeys(db.family, def, values, db.env));
    forall i | 0 <= i < |list|
      ensures NodeKey(db.graphId, ids[i]) in db.nodes && db.nodes[NodeKey(db.graphId, ids[i])] == list[i]
    {
      MatchingMembers(db.nodes, def, encoded, db.env, list[i]);
      CoveredStored(def, db.nodes, list[i]);
    }
    LoadsSelected(db.nodes, db.graphId, ids, list, labels);
    SelectTwice(NodesOf(db.nodes, def.graphId), (n: Node) => Matches(def, encoded, db.env, n), (n: Node) => HasAllLabels(n, labels),
                (n: Node) => Matches(def, encoded, db.env, n) && HasAllLabels(n, labels));
  }

  lemma {:induction false} Chosen(defs: seq<IndexDefinition>, eqs: seq<EqPredicate>)
    requires ChooseIndex(defs, eqs).Some?
    requires forall i, j :: 0 <= i < j < |defs| ==> defs[i].name != defs[j].name
    ensures var def := ChooseIndex(defs, eqs).value;
            && def in defs && def.entityType.NodeEntity? && def.propertyNames != [] && Cover(def.propertyNames, eqs).Some?
            && FindIndex(defs, def.name) == Some(def)
  {
    hide Cover;
    if !(defs[0].entityType.NodeEntity? && defs[0].propertyNames != [] && Cover(defs[0].propertyNames, eqs).Some?) {
      Chosen(defs[1..], eqs);
      var def := ChooseIndex(defs, eqs).value;
      var j :| 0 <= j < |defs[1..]| && defs[1..][j] == def;
      assert defs[j + 1] == def;
    }
  }

  lemma {:induction false} ConjoinPlain(parts: seq<Expression>, v: string)
    requires AllPlain(parts, v) && parts != []
    ensures Conjoin(parts).Some? && PlainExpr(Conjoin(parts).value, v)
  {
    var k := |parts| - 1;
    if k > 0 {
      ConjoinPlain(parts[..k], v);
      var e := Expression.Binary(Conjoin(parts[..k]).value, And, parts[k]);
      assert Conjoin(parts) == Some(e) && PlainExpr(parts[k], v);
    } else {
      assert parts[..0] == [];
    }
  }

  lemma {:induction false} OthersPlain(es: seq<Expression>, v: string)
    requires AllPlain(es, v)
    ensures AllPlain(Others(es, Some(v)), v)
  {
    hide PlainExpr, AsEquality;
    if es != [] {
      OthersPlain(es[1..], v);
    }
  }

  lemma {:induction false} UnusedPlain(eqs: seq<EqPredicate>, used: seq<nat>, from: nat, v: string)
    requires PlainEqualities(eqs, v) && AllEvaluable(eqs) && from <= |eqs|
    ensures AllPlain(Unused(eqs, used, from, Some(v)), v)
    decreases |eqs| - from
  {
    hide PlainName, Evaluable;
    if from < |eqs| {
      UnusedPlain(eqs, used, from + 1, v);
      RebuiltPlain(eqs[from], v);
      hide PlainExpr, Rebuild;
    }
  }

  lemma RebuiltPlain(q: EqPredicate, v: string)
    requires PlainName(q.property, v) && Evaluable(q.value)
    ensures PlainExpr(Rebuild(Some(v), q), v)
  {
    hide PlainName, EvalLiteral;
  }

  lemma RemainingPlain(e: Expression, used: seq<nat>, v: string)
    requires RewritablePredicate(e, v)
    ensures AllPlain(RemainingParts(e, used, v), v)
  {
    hide PlainExpr, PlainName, Evaluable, Conjuncts, Equalities, Others, Unused;
    ConjunctsPlain(e, v);
    EqualitiesPlain(Conjuncts(e), v);
    OthersPlain(Conjuncts(e), v);
    UnusedPlain(Equalities(Conjuncts(e), Some(v)), used, 0, v);
  }

  /** The verdict of what remains; with nothing left to check every candidate stays. */
  function JudgeRemaining(remaining: Option<Expression>, n: Node, v: string, lib: Library): Verdict {
    match remaining case Some(e) => Judge(e, n, v, lib) case None => Truthy
  }

  lemma RemainingJudged(e: Expression, used: seq<nat>, n: Node, v: string, lib: Library)
    ensures JudgeRemaining(Conjoin(RemainingParts(e, used, v)), n, v, lib) == JudgeAll(RemainingParts(e, used, v), n, v, lib)
  {
    hide Judge, RemainingParts;
    var parts := RemainingParts(e, used, v);
    if parts != [] {
      hide Conjoin, JudgeAll;
      JudgeConjoined(parts, n, v, lib);
    }
  }

  /**
   The lookup's mistakes about the node do not show: one it misses wrongly is not
   selected by the filter anyway, and one it finds wrongly is neither kept by
   what remains of the predicate nor makes it fail.
   */
  ghost predicate RightlyJudged(def: IndexDefinition, e: Expression, used: seq<nat>, values: seq<Value>, n: Node, v: string,
                                lib: Library)
    requires |values| == |def.propertyNames|
  {
    var after := JudgeRemaining(Conjoin(RemainingParts(e, used, v)), n, v, lib);
    && (MissedWrongly(IndexedValues(def, n), values, HasIndexed(def, n)) ==> !Judge(e, n, v, lib).Truthy?)
    && (FoundWrongly(IndexedValues(def, n), values) ==> !after.Fails? && !after.Truthy?)
  }

  /** One node of the graph under the rewrite: the two ways of selecting it agree if and only if it is rightly judged. */
  lemma NodeStep(db: Database, def: IndexDefinition, e: Expression, used: seq<nat>, values: seq<Value>, n: Node, v: string,
                 lib: Library)
    requires EnvOk(db.env) && RewritablePredicate(e, v)
    requires Covering(def, Equalities(Conjuncts(e), Some(v)), used, values)
    requires !Judge(e, n, v, lib).Fails?
    ensures var after := JudgeRemaining(Conjoin(RemainingParts(e, used, v)), n, v, lib);
            RightlyJudged(def, e, used, values, n, v, lib) <==>
              if Matches(def, EncodeValues(values, db.env.codec), db.env, n)
              then !after.Fails? && (after.Truthy? <==> Judge(e, n, v, lib).Truthy?)
              else !Judge(e, n, v, lib).Truthy?
  {
    hide Judge, JudgeAll, RemainingParts, Conjoin, Matches, EncodeValues, EnvOk, Conjuncts, Equalities, AllHold, HasIndexed,
      RewritablePredicate, Evaluable, IndexedValues, JudgeRemaining, FoundWrongly, MissedWrongly;
    LookupJudgedExactly(def, Equalities(Conjuncts(e), Some(v)), used, values, n, db.env);
    NodeUnderRewrite(e, used, n, v, lib);
    RemainingJudged(e, used, n, v, lib);
  }

  /** Every node with the labels is rightly judged. */
  ghost predicate Harmless(db: Database, def: IndexDefinition, e: Expression, used: seq<nat>, values: seq<Value>,
                           labels: seq<string>, v: string, lib: Library)
    requires |values| == |def.propertyNames|
  {
    forall n :: n in NodesOf(db.nodes, db.graphId) && HasAllLabels(n, labels) ==>
      RightlyJudged(def, e, used, values, n, v, lib)
  }

  /** The index scan keeps the nodes the filtered scan keeps if and only if the lookup is harmless. */
  lemma SameKeptIff(db: Database, def: IndexDefinition, e: Expression, used: seq<nat>, values: seq<Value>,
                    labels: seq<string>,
                    v: string, lib: Library)
    requires EnvOk(db.env) && NodesKeyed(db.nodes) && Coherent(db.family, def, db.nodes, db.env) && def.graphId == db.graphId
    requires RewritablePredicate(e, v) && LabelsApart(db.nodes, db.graphId, labels)
    requires |values| == |def.propertyNames| && Covering(def, Equalities(Conjuncts(e), Some(v)), used, values)
    requires Kept(ScannedNodes(db.nodes, db.graphId, labels), e, v, lib).Success?
    ensures var candidates := LoadAll(db.nodes, db.graphId, IdsIn(LookupKeys(db.family, def, values, db.env)), labels);
            KeptBy(candidates, n => JudgeRemaining(Conjoin(RemainingParts(e, used, v)), n, v, lib))
              == Some(Kept(ScannedNodes(db.nodes, db.graphId, labels), e, v, lib).value)
            <==> Harmless(db, def, e, used, values, labels, v, lib)
  {
    hide LoadAll, LookupKeys, KeptBy, RemainingParts, Conjoin, JudgeRemaining, Judge, ScannedNodes, Kept,
      RightlyJudged, Covering,
      RewritablePredicate, LabelsApart, EnvOk, NodesKeyed, Coherent, NodesOf, HasAllLabels, Select, Matches, EncodeValues;
    var all := NodesOf(db.nodes, db.graphId);
    var wide := (n: Node) => HasAllLabels(n, labels);
    var narrow := (n: Node) => Matches(def, EncodeValues(values, db.env.codec), db.env, n) && HasAllLabels(n, labels);
    var judge := n => Judge(e, n, v, lib);
    var judge' := n => JudgeRemaining(Conjoin(RemainingParts(e, used, v)), n, v, lib);
    ScanSelects(db.nodes, db.graphId, labels);
    CandidatesSelected(db, def, values, labels);
    KeptIsKeptBy(ScannedNodes(db.nodes, db.graphId, labels), e, v, lib);
    NoneFail(all, wide, judge);
    forall n | n in all && wide(n)
      ensures RightlyJudged(def, e, used, values, n, v, lib) <==>
                (!narrow(n) ==> !judge(n).Truthy?)
                && (narrow(n) ==> !judge'(n).Fails? && (judge'(n).Truthy? <==> judge(n).Truthy?))
    {
      NodeStep(db, def, e, used, values, n, v, lib);
    }
    if Harmless(db, def, e, used, values, labels, v, lib) {
      NarrowedKept(all, wide, narrow, judge, judge');
    }
    if KeptBy(Select(all, narrow), judge') == KeptBy(Select(all, wide), judge) {
      NarrowedAgree(all, wide, narrow, judge, judge');
    }
  }

  // ----- whole plans -----

  /** The looked-up literals are scalars, as all literals the parser makes are. */
  ghost predicate ScalarsSought(eqs: seq<EqPredicate>, used: seq<nat>)
    requires AllEvaluable(eqs) && Indices(used, |eqs|)
  {
    forall j :: 0 <= j < |used| ==> Tag(LiteralValue(eqs[used[j]].value)) != 0xFF
  }

  lemma CoveringOf(def: IndexDefinition, eqs: seq<EqPredicate>, rt: Runtime)
    requires AllEvaluable(eqs) && Cover(def.propertyNames, eqs).Some? && def.propertyNames != []
    requires ScalarsSought(eqs, Cover(def.propertyNames, eqs).value)
    ensures var used := Cover(def.propertyNames, eqs).value;
            && Indices(used, |eqs|) && |Sought(eqs, used)| == |def.propertyNames|
            && EvaluateAll(LookupValues(eqs, used), EMPTY_ROW, rt) == Success(Sought(eqs, used))
            && Covering(def, eqs, used, Sought(eqs, used))
  {
    hide Evaluable, Cover, EvaluateAll;
    var used := Cover(def.propertyNames, eqs).value;
    LiteralsEvaluate(LookupValues(eqs, used), rt);
    assert EvaluateAll(LookupValues(eqs, used), EMPTY_ROW, rt).value == Sought(eqs, used);
  }

  /** A scan's rows list its nodes under stored property keys. */
  lemma {:induction false} ScanLists(db: Database, list: seq<Node>, v: string, lib: Library, order: KeyOrder)
    requires OrderOk(order) && forall n :: n in list ==> n in NodesOf(db.nodes, db.graphId)
    ensures Shows(RowsFor(list, Some(v), order(KeysOfNodes(list)), lib), list, v, order(KeysOfNodes(list)), StoredKeys(db), lib)
  {
    hide NodesOf, ColumnsFor, RowFor, RowsFor;
    var all := NodesOf(db.nodes, db.graphId);
    forall k | k in order(KeysOfNodes(list)) ensures k in StoredKeys(db) {
      var i :| 0 <= i < |list| && k in list[i].properties;
      assert list[i] in list;
      var j :| 0 <= j < |all| && all[j] == list[i];
      assert k in all[j].properties;
    }
  }

  lemma ScannedMembers(nodes: NodeTable, graphId: Uuid, labels: seq<string>)
    requires LabelsApart(nodes, graphId, labels)
    ensures forall n :: n in ScannedNodes(nodes, graphId, labels) ==> n in NodesOf(nodes, graphId)
  {
    hide NodesOf, ScannedNodes, Select, HasAllLabels, LabelsApart, StrictlySorted;
    ScanSelects(nodes, graphId, labels);
    SelectExactly(NodesOf(nodes, graphId), (n: Node) => HasAllLabels(n, labels));
  }

  lemma CandidateMembers(db: Database, def: IndexDefinition, values: seq<Value>, labels: seq<string>)
    requires EnvOk(db.env) && NodesKeyed(db.nodes) && Coherent(db.family, def, db.nodes, db.env)
    requires def.graphId == db.graphId && |values| == |def.propertyNames|
    ensures forall n :: n in LoadAll(db.nodes, db.graphId, IdsIn(LookupKeys(db.family, def, values, db.env)), labels) ==>
              n in NodesOf(db.nodes, db.graphId)
  {
    hide NodesOf, LoadAll, Select, HasAllLabels, Matches, StrictlySorted, Coherent, NodesKeyed, EnvOk, LookupKeys,
      EncodeValues;
    CandidatesSelected(db, def, values, labels);
    SelectExactly(NodesOf(db.nodes, db.graphId), (n: Node) =>
      Matches(def, EncodeValues(values, db.env.codec), db.env, n) && HasAllLabels(n, labels));
  }

  /** What an index scan returns once its index and values are known. */
  lemma IndexScanRuns(db: Database, def: IndexDefinition, labels: seq<string>, v: string, lookup: seq<Expression>,
                      remaining: Option<Expression>, lib: Library, order: KeyOrder)
    requires FamilyOk(db.family, db.env) && FindIndex(DefsAt(db.family, db.graphId, db.env), def.name) == Some(def)
    requires EvaluateAll(lookup, EMPTY_ROW, lib.rt).Success? && OrderOk(order) && PlainSet(StoredKeys(db), v)
    requires remaining.Some? ==> PlainExpr(remaining.value, v)
    requires var ks := LookupKeys(db.family, def, EvaluateAll(lookup, EMPTY_ROW, lib.rt).value, db.env);
             forall n :: n in LoadAll(db.nodes, db.graphId, IdsIn(ks), labels) ==> n in NodesOf(db.nodes, db.graphId)
    ensures var r := RunIndexScan(db, def.name, labels, Some(v), lookup, remaining, lib, order);
            var ks := LookupKeys(db.family, def, EvaluateAll(lookup, EMPTY_ROW, lib.rt).value, db.env);
            var kept := KeptBy(LoadAll(db.nodes, db.graphId, IdsIn(ks), labels), n => JudgeRemaining(remaining, n, v, lib));
            && (r.Success? <==> kept.Some?)
            && (r.Success? ==> exists keys :: Shows(r.value, kept.value, v, keys, StoredKeys(db), lib))
  {
    hide FamilyOk, DefsAt, FindIndex, EvaluateAll, LookupKeys, LoadAll, NodesOf, PlainExpr, PlainSet, RunFilter, ColumnsFor,
      RowFor, Judge, Shows, KeysOfNodes, StoredKeys, KeptBy, Kept;
    var ks := LookupKeys(db.family, def, EvaluateAll(lookup, EMPTY_ROW, lib.rt).value, db.env);
    var list := LoadAll(db.nodes, db.graphId, IdsIn(ks), labels);
    var keys := order(KeysOfNodes(list));
    ScanLists(db, list, v, lib, order);
    var rs := RowsFor(list, Some(v), keys, lib);
    match remaining {
      case Some(e) =>
        KeptAgain(list, e, v, lib);
        FilterLists(rs, list, e, v, keys, StoredKeys(db), lib);
      case None => AllKeptAgain(list, v, lib);
    }
  }

  lemma KeptAgain(list: seq<Node>, e: Expression, v: string, lib: Library)
    ensures Kept(list, e, v, lib).Success? <==> KeptBy(list, n => JudgeRemaining(Some(e), n, v, lib)).Some?
    ensures Kept(list, e, v, lib).Success? ==>
              KeptBy(list, n => JudgeRemaining(Some(e), n, v, lib)) == Some(Kept(list, e, v, lib).value)
  {
    hide Kept, KeptBy, Judge;
    KeptIsKeptBy(list, e, v, lib);
    KeptAlike(list, n => Judge(e, n, v, lib), n => JudgeRemaining(Some(e), n, v, lib));
  }

  lemma AllKeptAgain(list: seq<Node>, v: string, lib: Library)
    ensures KeptBy(list, n => JudgeRemaining(None, n, v, lib)) == Some(list)
  {
    hide KeptBy, Judge;
    AllKept(list, n => JudgeRemaining(None, n, v, lib));
  }

  lemma {:induction false} KeptAlike(list: seq<Node>, f: Node -> Verdict, g: Node -> Verdict)
    requires forall n :: f(n) == g(n)
    ensures KeptBy(list, f) == KeptBy(list, g)
  {
    if list != [] {
      KeptAlike(list[..|list| - 1], f, g);
    }
  }

  lemma DefsOfGraph(db: Database)
    requires FamilyOk(db.family, db.env)
    ensures forall d: IndexDefinition :: d in DefsAt(db.family, db.graphId, db.env) ==> d.graphId == db.graphId
    ensures var defs := DefsAt(db.family, db.graphId, db.env);
            forall i, j :: 0 <= i < j < |defs| ==> defs[i].name != defs[j].name
  {
    hide FamilyOk, DefsAt, Listed;
    DefsAtListed(db.family, db.graphId, db.env);
  }

  /** The index the rewrite chooses is coherent; the literals of the equalities have values, and those looked up are scalars. */
  ghost predicate Answerable(db: Database, e: Expression, v: string)
    requires FamilyOk(db.family, db.env)
  {
    var eqs := Equalities(Conjuncts(e), Some(v));
    var chosen := ChooseIndex(DefsAt(db.family, db.graphId, db.env), eqs);
    && AllEvaluable(eqs)
    && (chosen.Some? && Cover(chosen.value.propertyNames, eqs).Some? ==>
          && Coherent(db.family, chosen.value, db.nodes, db.env)
          && ScalarsSought(eqs, Cover(chosen.value.propertyNames, eqs).value))
  }

  /** The lookup in the chosen index makes no mistake that shows. */
  ghost predicate LookupHarmless(db: Database, labels: seq<string>, e: Expression, v: string, lib: Library)
    requires FamilyOk(db.family, db.env) && Answerable(db, e, v)
  {
    var eqs := Equalities(Conjuncts(e), Some(v));
    var chosen := ChooseIndex(DefsAt(db.family, db.graphId, db.env), eqs);
    chosen.Some? && Cover(chosen.value.propertyNames, eqs).Some? ==>
      var used := Cover(chosen.value.propertyNames, eqs).value;
      Harmless(db, chosen.value, e, used, Sought(eqs, used), labels, v, lib)
  }

  /** The index scan with the chosen index and its literals, beside the filtered scan. */
  lemma ChosenScan(db: Database, def: IndexDefinition, used: seq<nat>, labels: seq<string>, e: Expression, v: string,
                   lib: Library,
                   before: KeyOrder, after: KeyOrder)
    requires StoreOk(db) && LibraryOk(lib) && OrderOk(before) && OrderOk(after) && PlainSet(StoredKeys(db), v)
    requires RewritablePredicate(e, v) && LabelsApart(db.nodes, db.graphId, labels)
    requires FamilyOk(db.family, db.env) && FindIndex(DefsAt(db.family, db.graphId, db.env), def.name) == Some(def)
    requires Coherent(db.family, def, db.nodes, db.env) && def.graphId == db.graphId
    requires AllEvaluable(Equalities(Conjuncts(e), Some(v))) && Indices(used, |Equalities(Conjuncts(e), Some(v))|)
    requires var eqs := Equalities(Conjuncts(e), Some(v));
             && |Sought(eqs, used)| == |def.propertyNames| && Covering(def, eqs, used, Sought(eqs, used))
             && EvaluateAll(LookupValues(eqs, used), EMPTY_ROW, lib.rt) == Success(Sought(eqs, used))
    requires Execute(Filter(Scan(labels, Some(v)), e), db, lib, before).Success?
    ensures var eqs := Equalities(Conjuncts(e), Some(v));
            var r := RunIndexScan(db, def.name, labels, Some(v), LookupValues(eqs, used), Conjoin(RemainingParts(e, used, v)), lib, after);
            r.Success? && Equivalent(Execute(Filter(Scan(labels, Some(v)), e), db, lib, before).value, r.value, v, StoredKeys(db), lib)
            <==> Harmless(db, def, e, used, Sought(eqs, used), labels, v, lib)
  {
    hide *;
    Ready(db);
    var eqs := Equalities(Conjuncts(e), Some(v));
    var values := Sought(eqs, used);
    var scanned := ScannedNodes(db.nodes, db.graphId, labels);
    ScannedMembers(db.nodes, db.graphId, labels);
    ScanLists(db, scanned, v, lib, before);
    FilterRuns(db, labels, e, v, lib, before);
    SameKeptIff(db, def, e, used, values, labels, v, lib);
    CandidateMembers(db, def, values, labels);
    KeptScanned(scanned, e, v, lib);
    var remaining := Conjoin(RemainingParts(e, used, v));
    RemainingPlain(e, used, v);
    ConjoinedPlain(RemainingParts(e, used, v), v);
    IndexScanRuns(db, def, labels, v, LookupValues(eqs, used), remaining, lib, after);
    BothShown(db, Execute(Filter(Scan(labels, Some(v)), e), db, lib, before).value,
              RunIndexScan(db, def.name, labels, Some(v), LookupValues(eqs, used), remaining, lib, after),
              Kept(scanned, e, v, lib).value,
              LoadAll(db.nodes, db.graphId, IdsIn(LookupKeys(db.family, def, values, db.env)), labels),
              n => JudgeRemaining(remaining, n, v, lib), v, before(KeysOfNodes(scanned)), lib);
  }

  lemma KeptScanned(list: seq<Node>, e: Expression, v: string, lib: Library)
    requires Kept(list, e, v, lib).Success?
    ensures forall n :: n in Kept(list, e, v, lib).value ==> n in list
  {
    hide Kept, KeptBy, Judge;
    KeptIsKeptBy(list, e, v, lib);
    KeptMembers(list, n => Judge(e, n, v, lib));
  }

  /**
   The rewrite itself: where the filtered scan succeeds, the index scan that
   replaces it succeeds with the same nodes in the same order if and only if the
   lookup is harmless.
   */
  lemma FilterBecomesIndexScan(db: Database, labels: seq<string>, e: Expression, v: string, lib: Library, before: KeyOrder,
                               after: KeyOrder)
    requires StoreOk(db) && LibraryOk(lib) && OrderOk(before) && OrderOk(after) && PlainSet(StoredKeys(db), v)
    requires PlainExpr(e, v) && Answerable(db, e, v) && LabelsApart(db.nodes, db.graphId, labels)
    requires TryIndexScan(DefsAt(db.family, db.graphId, db.env), labels, Some(v), e).Some?
    requires Execute(Filter(Scan(labels, Some(v)), e), db, lib, before).Success?
    ensures var plan := TryIndexScan(DefsAt(db.family, db.graphId, db.env), labels, Some(v), e).value;
            && Execute(plan, db, lib, after).Success?
            && Equivalent(Execute(Filter(Scan(labels, Some(v)), e), db, lib, before).value, Execute(plan, db, lib, after).value,
                          v, StoredKeys(db), lib)
            <==> LookupHarmless(db, labels, e, v, lib)
  {
    hide *;
    Ready(db);
    var defs := DefsAt(db.family, db.graphId, db.env);
    var eqs := Equalities(Conjuncts(e), Some(v));
    DefsOfGraph(db);
    RewrittenPlan(defs, labels, e, v);
    Chosen(defs, eqs);
    var def := ChooseIndex(defs, eqs).value;
    var used := Cover(def.propertyNames, eqs).value;
    MakeRewritable(e, v, StoredKeys(db), db);
    Answered(db, labels, e, v, lib);
    CoveringOf(def, eqs, lib.rt);
    ChosenScan(db, def, used, labels, e, v, lib, before, after);
    IndexScanExecutes(db, def.name, labels, Some(v), def.propertyNames, LookupValues(eqs, used),
                      Conjoin(RemainingParts(e, used, v)), lib, after);
  }

  /** Results that show their nodes are equivalent exactly when they show the same ones. */
  lemma BothShown(db: Database, a: ResultSet, r: QueryResult, kept: seq<Node>, candidates: seq<Node>, judge: Node -> Verdict,
                  v: string, keys: seq<string>, lib: Library)
    requires NodesKeyed(db.nodes) && (r.Success? <==> KeptBy(candidates, judge).Some?)
    requires Shows(a, kept, v, keys, StoredKeys(db), lib)
    requires r.Success? ==> exists ks :: Shows(r.value, KeptBy(candidates, judge).value, v, ks, StoredKeys(db), lib)
    requires forall n :: n in kept || n in candidates ==> n in NodesOf(db.nodes, db.graphId)
    ensures r.Success? && Equivalent(a, r.value, v, StoredKeys(db), lib) <==> KeptBy(candidates, judge) == Some(kept)
  {
    hide Shows, KeptBy, Equivalent, NodesOf, StoredKeys, NodesKeyed;
    if r.Success? {
      var list := KeptBy(candidates, judge).value;
      var ks :| Shows(r.value, list, v, ks, StoredKeys(db), lib);
      KeptMembers(candidates, judge);
      GraphOf(db, kept);
      GraphOf(db, list);
      if Equivalent(a, r.value, v, StoredKeys(db), lib) {
        EquivalentNodes(a, r.value, kept, list, v, keys, ks, StoredKeys(db), lib, db.graphId);
      }
      if list == kept {
        SameLists(a, r.value, kept, v, keys, ks, StoredKeys(db), lib);
      }
    }
  }

  lemma GraphOf(db: Database, list: seq<Node>)
    requires NodesKeyed(db.nodes) && forall n :: n in list ==> n in NodesOf(db.nodes, db.graphId)
    ensures forall n :: n in list ==> n.graphId == db.graphId
  {
    hide NodesOf, NodesKeyed, StrictlySorted;
    NodesOfExactly(db.nodes, db.graphId);
  }

  lemma Answered(db: Database, labels: seq<string>, e: Expression, v: string, lib: Library)
    requires FamilyOk(db.family, db.env) && Answerable(db, e, v)
    ensures AllEvaluable(Equalities(Conjuncts(e), Some(v)))
    ensures var eqs := Equalities(Conjuncts(e), Some(v));
            var chosen := ChooseIndex(DefsAt(db.family, db.graphId, db.env), eqs);
            chosen.Some? && Cover(chosen.value.propertyNames, eqs).Some? ==>
              var used := Cover(chosen.value.propertyNames, eqs).value;
              && Coherent(db.family, chosen.value, db.nodes, db.env) && ScalarsSought(eqs, used)
              && |Sought(eqs, used)| == |chosen.value.propertyNames|
              && (LookupHarmless(db, labels, e, v, lib) <==>
                    Harmless(db, chosen.value, e, used, Sought(eqs, used), labels, v, lib))
  {
    hide FamilyOk, DefsAt, ChooseIndex, Cover, Conjuncts, Equalities, Coherent, ScalarsSought, Harmless, Evaluable;
  }

  /**
   Enough for the lookup to be harmless: some looked-up literal is not null, and
   no node with the labels holds a value that is confused with its literal.
   */
  lemma UnconfusedIsHarmless(db: Database, def: IndexDefinition, e: Expression, used: seq<nat>, values: seq<Value>,
                             labels: seq<string>, v: string, lib: Library)
    requires EnvOk(db.env) && |values| == |def.propertyNames| && Covering(def, Equalities(Conjuncts(e), Some(v)), used, values)
    requires exists j :: 0 <= j < |values| && !values[j].Null?
    requires forall n, j :: n in NodesOf(db.nodes, db.graphId) && HasAllLabels(n, labels) && 0 <= j < |values| ==>
               !Confused(IndexedValues(def, n)[j], values[j])
    ensures Harmless(db, def, e, used, values, labels, v, lib)
  {
    hide Conjuncts, Equalities, Covering, Confused, NodesOf, HasAllLabels, EncodeValues, Matches, AllHold,
      JudgeRemaining, Judge, Conjoin,
      RemainingParts, IndexedValues, HasIndexed, FoundWrongly, MissedWrongly, EnvOk;
    var eqs := Equalities(Conjuncts(e), Some(v));
    CoveringParts(def, eqs, used, values);
    forall n | n in NodesOf(db.nodes, db.graphId) && HasAllLabels(n, labels)
      ensures RightlyJudged(def, e, used, values, n, v, lib)
    {
      LookupJudgedExactly(def, eqs, used, values, n, db.env);
      AgreeUnlessConfused(def, eqs, used, values, n, db.env);
    }
  }

  lemma CoveringParts(def: IndexDefinition, eqs: seq<EqPredicate>, used: seq<nat>, values: seq<Value>)
    requires Covering(def, eqs, used, values)
    ensures AllEvaluable(eqs) && Indices(used, |eqs|)
  {
    hide Evaluable;
  }

  lemma SameLists(a: ResultSet, b: ResultSet, list: seq<Node>, v: string, ka: seq<string>, kb: seq<string>, all: set<string>,
                  lib: Library)
    requires Shows(a, list, v, ka, all, lib) && Shows(b, list, v, kb, all, lib)
    ensures Equivalent(a, b, v, all, lib)
  {
    hide Shows;
  }

  lemma ConjoinedPlain(parts: seq<Expression>, v: string)
    requires AllPlain(parts, v)
    ensures Conjoin(parts).Some? ==> PlainExpr(Conjoin(parts).value, v)
  {
    hide AllPlain, PlainExpr;
    if parts != [] {
      ConjoinPlain(parts, v);
    }
  }

  lemma RewrittenPlan(defs: seq<IndexDefinition>, labels: seq<string>, e: Expression, v: string)
    requires TryIndexScan(defs, labels, Some(v), e).Some?
    ensures var eqs := Equalities(Conjuncts(e), Some(v));
            ChooseIndex(defs, eqs).Some?
    ensures var eqs := Equalities(Conjuncts(e), Some(v));
            var def := ChooseIndex(defs, eqs).value;
            Cover(def.propertyNames, eqs).Some?
    ensures var eqs := Equalities(Conjuncts(e), Some(v));
            var def := ChooseIndex(defs, eqs).value;
            var used := Cover(def.propertyNames, eqs).value;
            TryIndexScan(defs, labels, Some(v), e) ==
              Some(IndexScan(def.name, labels, Some(v), def.propertyNames, LookupValues(eqs, used),
                             Conjoin(RemainingParts(e, used, v))))
  {
    hide Conjuncts, Equalities, Others, Unused, Conjoin, ChooseIndex, Cover;
  }

  lemma FilterRuns(db: Database, labels: seq<string>, e: Expression, v: string, lib: Library, order: KeyOrder)
    requires FamilyOk(db.family, db.env) && LibraryOk(lib) && RewritablePredicate(e, v) && PlainSet(StoredKeys(db), v)
    requires var scanned := ScannedNodes(db.nodes, db.graphId, labels);
             Shows(RowsFor(scanned, Some(v), order(KeysOfNodes(scanned)), lib), scanned, v, order(KeysOfNodes(scanned)),
                   StoredKeys(db), lib)
    requires Execute(Filter(Scan(labels, Some(v)), e), db, lib, order).Success?
    ensures var scanned := ScannedNodes(db.nodes, db.graphId, labels);
            && Kept(scanned, e, v, lib).Success?
            && Shows(Execute(Filter(Scan(labels, Some(v)), e), db, lib, order).value, Kept(scanned, e, v, lib).value, v,
                     order(KeysOfNodes(scanned)), StoredKeys(db), lib)
  {
    hide FamilyOk, ScannedNodes, KeysOfNodes, RunFilter, Kept, Shows, PlainExpr, StoredKeys, PlainSet, Evaluable, Conjuncts,
      Equalities, RowFor, ColumnsFor;
    var scanned := ScannedNodes(db.nodes, db.graphId, labels);
    var keys := order(KeysOfNodes(scanned));
    FilterLists(RowsFor(scanned, Some(v), keys, lib), scanned, e, v, keys, StoredKeys(db), lib);
    assert Execute(Scan(labels, Some(v)), db, lib, order) == Success(RowsFor(scanned, Some(v), keys, lib));
  }

  lemma IndexScanExecutes(db: Database, name: string, labels: seq<string>, variable: Option<string>, names: seq<string>,
                          values: seq<Expression>, remaining: Option<Expression>, lib: Library, order: KeyOrder)
    requires FamilyOk(db.family, db.env) && LibraryOk(lib)
    ensures Execute(IndexScan(name, labels, variable, names, values, remaining), db, lib, order) ==
              RunIndexScan(db, name, labels, variable, values, remaining, lib, order)
  {
    hide FamilyOk, RunIndexScan;
  }

  // ----- pipelines -----

  /** The plan has gone through a projection. */
  predicate Projected(plan: Plan) {
    match plan
    case Project(_, _, _) => true
    case Filter(input, _) => Projected(input)
    case Sort(input, _) => Projected(input)
    case Limit(input, _, _) => Projected(input)
    case _ => false
  }

  /**
   A pipeline over one scan of a named variable. Below the projection,
   expressions read only plain properties of the variable; where a predicate is
   rewritten, the chosen index is coherent and the lookup harmless.
   */
  ghost predicate Pipeline(plan: Plan, db: Database, v: string, lib: Library)
    requires FamilyOk(db.family, db.env)
  {
    match plan
    case Scan(labels, variable) => variable == Some(v) && LabelsApart(db.nodes, db.graphId, labels)
    case Filter(input, e) =>
      && Pipeline(input, db, v, lib)
      && (Projected(input) || PlainExpr(e, v))
      && (input.Scan? && TryIndexScan(DefsAt(db.family, db.graphId, db.env), input.labels, input.variable, e).Some? ==>
            Answerable(db, e, v) && LookupHarmless(db, input.labels, e, v, lib))
    case Project(input, es, _) =>
      && Pipeline(input, db, v, lib)
      && (Projected(input) || (NoneInternal(StoredKeys(db), v) && AllPlain(es, v)))
    case Sort(input, keys) =>
      Pipeline(input, db, v, lib) && (Projected(input) || forall i :: 0 <= i < |keys| ==> PlainExpr(keys[i].e, v))
    case Limit(input, _, _) => Pipeline(input, db, v, lib)
    case IndexScan(_, _, _, _, _, _) => false
  }

  /** The two executions agree: the second succeeds where the first does, with an equivalent result. */
  ghost predicate Preserved(a: QueryResult, b: QueryResult, projected: bool, v: string, all: set<string>, lib: Library) {
    a.Success? ==> b.Success? && Equivalent(a.value, b.value, v, all, lib) && (projected ==> a == b)
  }

  lemma OptimizedScan(plan: Plan, defs: seq<IndexDefinition>)
    requires Optimize(plan, defs).Scan?
    ensures Optimize(plan, defs) == plan
  {
    hide TryIndexScan;
    if plan.Filter? {
      var input' := Optimize(plan.input, defs);
      if input'.Scan? {
        TryGivesIndexScan(defs, input'.labels, input'.variable, plan.predicate_);
      }
    }
  }

  lemma TryGivesIndexScan(defs: seq<IndexDefinition>, labels: seq<string>, variable: Option<string>, e: Expression)
    ensures TryIndexScan(defs, labels, variable, e).Some? ==> TryIndexScan(defs, labels, variable, e).value.IndexScan?
  {
    hide Conjuncts, Equalities, Others, Unused, Conjoin, ChooseIndex, Cover;
  }

  lemma {:induction false} PipelineVariable(plan: Plan, db: Database, v: string, lib: Library)
    requires FamilyOk(db.family, db.env) && Pipeline(plan, db, v, lib)
    ensures !plan.IndexScan? && (plan.Scan? ==> plan.variable == Some(v) && LabelsApart(db.nodes, db.graphId, plan.labels))
  {
    hide FamilyOk, DefsAt, PlainExpr, NoneInternal, AllPlain, Answerable, LookupHarmless, TryIndexScan, LabelsApart;
  }

  lemma ScanStep(labels: seq<string>, db: Database, v: string, lib: Library, before: KeyOrder, after: KeyOrder)
    requires FamilyOk(db.family, db.env) && LibraryOk(lib) && OrderOk(before) && OrderOk(after)
    requires LabelsApart(db.nodes, db.graphId, labels)
    ensures Preserved(Execute(Scan(labels, Some(v)), db, lib, before), Execute(Scan(labels, Some(v)), db, lib, after), false, v,
                      StoredKeys(db), lib)
  {
    hide FamilyOk, LabelsApart, ScannedNodes, KeysOfNodes, StoredKeys, Shows, ColumnsFor, RowFor, LibraryOk, OrderOk;
    var list := ScannedNodes(db.nodes, db.graphId, labels);
    ScannedMembers(db.nodes, db.graphId, labels);
    ScanLists(db, list, v, lib, before);
    ScanLists(db, list, v, lib, after);
    SameLists(RowsFor(list, Some(v), before(KeysOfNodes(list)), lib), RowsFor(list, Some(v), after(KeysOfNodes(list)), lib), list,
              v, before(KeysOfNodes(list)), after(KeysOfNodes(list)), StoredKeys(db), lib);
  }

  lemma {:induction false} FilterExecutes(input: Plan, e: Expression, db: Database, lib: Library, order: KeyOrder)
    requires FamilyOk(db.family, db.env) && LibraryOk(lib)
    ensures var r := Execute(input, db, lib, order);
            Execute(Filter(input, e), db, lib, order) == if r.Success? then RunFilter(r.value, e, lib.rt) else r
  {
    hide FamilyOk, LibraryOk, RunFilter;
  }

  lemma {:induction false} SortExecutes(input: Plan, keys: seq<SortKey>, db: Database, lib: Library, order: KeyOrder)
    requires FamilyOk(db.family, db.env) && LibraryOk(lib)
    ensures var r := Execute(input, db, lib, order);
            Execute(Sort(input, keys), db, lib, order) == if r.Success? then RunSort(r.value, keys, lib) else r
  {
    hide FamilyOk, LibraryOk, RunSort;
  }

  /** A filter that stays a filter. */
  lemma {:induction false} FilterStep(input: Plan, input': Plan, e: Expression, projected: bool, db: Database,
                                      v: string, lib: Library, before: KeyOrder, after: KeyOrder)
    requires FamilyOk(db.family, db.env) && LibraryOk(lib) && PlainSet(StoredKeys(db), v)
    requires Preserved(Execute(input, db, lib, before), Execute(input', db, lib, after), projected, v, StoredKeys(db), lib)
    requires projected || PlainExpr(e, v)
    ensures Preserved(Execute(Filter(input, e), db, lib, before), Execute(Filter(input', e), db, lib, after), projected, v,
                      StoredKeys(db), lib)
  {
    hide FamilyOk, LibraryOk, PlainSet, StoredKeys, PlainExpr, RunFilter, Equivalent, Execute;
    var a, b := Execute(input, db, lib, before), Execute(input', db, lib, after);
    FilterExecutes(input, e, db, lib, before);
    FilterExecutes(input', e, db, lib, after);
    if a.Success? {
      FilterEquivalent(a.value, b.value, e, v, StoredKeys(db), lib);
    }
  }

  lemma {:induction false} SortStep(input: Plan, input': Plan, keys: seq<SortKey>, projected: bool, db: Database,
                                    v: string, lib: Library, before: KeyOrder, after: KeyOrder)
    requires FamilyOk(db.family, db.env) && LibraryOk(lib) && PlainSet(StoredKeys(db), v)
    requires Preserved(Execute(input, db, lib, before), Execute(input', db, lib, after), projected, v, StoredKeys(db), lib)
    requires projected || forall i :: 0 <= i < |keys| ==> PlainExpr(keys[i].e, v)
    ensures Preserved(Execute(Sort(input, keys), db, lib, before), Execute(Sort(input', keys), db, lib, after), projected, v,
                      StoredKeys(db), lib)
  {
    hide FamilyOk, LibraryOk, PlainSet, StoredKeys, PlainExpr, RunSort, Equivalent, Execute;
    var a, b := Execute(input, db, lib, before), Execute(input', db, lib, after);
    SortExecutes(input, keys, db, lib, before);
    SortExecutes(input', keys, db, lib, after);
    if a.Success? {
      SortEquivalent(a.value, b.value, keys, v, StoredKeys(db), lib);
    }
  }

  lemma {:induction false} LimitExecutes(input: Plan, count: Option<nat>, offset: Option<nat>, db: Database, lib: Library,
                                         order: KeyOrder)
    requires FamilyOk(db.family, db.env) && LibraryOk(lib)
    ensures var a := Execute(input, db, lib, order);
            Execute(Limit(input, count, offset), db, lib, order) ==
              if a.Success? then Success(RunLimit(a.value, count, offset)) else a
  {
    hide FamilyOk, LibraryOk, RunLimit, RunFilter, RunProject, RunSort, RunScan, RunIndexScan;
  }

  lemma {:induction false} LimitStep(input: Plan, input': Plan, count: Option<nat>, offset: Option<nat>,
                                     projected: bool, db: Database, v: string, lib: Library, before: KeyOrder,
                                     after: KeyOrder)
    requires FamilyOk(db.family, db.env) && LibraryOk(lib)
    requires Preserved(Execute(input, db, lib, before), Execute(input', db, lib, after), projected, v, StoredKeys(db), lib)
    ensures Preserved(Execute(Limit(input, count, offset), db, lib, before), Execute(Limit(input', count, offset), db, lib, after),
                      projected, v, StoredKeys(db), lib)
  {
    hide FamilyOk, LibraryOk, StoredKeys, RunLimit, Equivalent, Execute;
    var a, b := Execute(input, db, lib, before), Execute(input', db, lib, after);
    LimitExecutes(input, count, offset, db, lib, before);
    LimitExecutes(input', count, offset, db, lib, after);
    if a.Success? {
      LimitEquivalent(a.value, b.value, count, offset, v, StoredKeys(db), lib);
    }
  }

  lemma {:induction false} ProjectStep(input: Plan, input': Plan, es: seq<Expression>, aliases: seq<Option<string>>,
                                       projected: bool, db: Database, v: string, lib: Library, before: KeyOrder,
                                       after: KeyOrder)
    requires FamilyOk(db.family, db.env) && LibraryOk(lib) && PlainSet(StoredKeys(db), v)
    requires Preserved(Execute(input, db, lib, before), Execute(input', db, lib, after), projected, v, StoredKeys(db), lib)
    requires projected || (NoneInternal(StoredKeys(db), v) && AllPlain(es, v))
    ensures Preserved(Execute(Project(input, es, aliases), db, lib, before), Execute(Project(input', es, aliases), db, lib, after),
                      true, v, StoredKeys(db), lib)
  {
    hide FamilyOk, LibraryOk, PlainSet, StoredKeys, PlainExpr, RunProject, NoneInternal;
    var a, b := Execute(input, db, lib, before), Execute(input', db, lib, after);
    if a.Success? {
      ProjectEquivalent(a.value, b.value, es, aliases, v, StoredKeys(db), lib);
    }
  }

  /**
   The optimizer preserves meaning: for any two iteration orders of the key
   sets, a pipeline that succeeds also succeeds optimized, with the same nodes
   in the same order, and with the same result once it projects.
   */
  lemma {:induction false} OptimizePreservesMeaning(plan: Plan, db: Database, v: string, lib: Library, before: KeyOrder,
                                                    after: KeyOrder)
    requires StoreOk(db) && LibraryOk(lib) && OrderOk(before) && OrderOk(after) && PlainSet(StoredKeys(db), v)
    requires Pipeline(plan, db, v, lib)
    ensures Preserved(Execute(plan, db, lib, before),
                      Execute(Optimize(plan, DefsAt(db.family, db.graphId, db.env)), db, lib, after), Projected(plan), v,
                      StoredKeys(db), lib)
    decreases plan
  {
    hide StoreOk, FamilyOk, EnvOk, NodesKeyed, LibraryOk, OrderOk, PlainSet, StoredKeys, DefsAt, TryIndexScan, Execute,
      Preserved,
      PlainExpr, AllPlain, NoneInternal, LabelsApart, Answerable, LookupHarmless;
    Ready(db);
    var defs := DefsAt(db.family, db.graphId, db.env);
    match plan
    case Scan(labels, _) => ScanStep(labels, db, v, lib, before, after);
    case Filter(input, e) =>
      OptimizePreservesMeaning(input, db, v, lib, before, after);
      var input' := Optimize(input, defs);
      FilterStep(input, input', e, Projected(input), db, v, lib, before, after);
      if input'.Scan? {
        OptimizedScan(input, defs);
        PipelineVariable(input, db, v, lib);
        if TryIndexScan(defs, input.labels, Some(v), e).Some? {
          RewriteStep(db, input.labels, e, v, lib, before, after);
        }
      }
    case Project(input, es, aliases) =>
      OptimizePreservesMeaning(input, db, v, lib, before, after);
      ProjectStep(input, Optimize(input, defs), es, aliases, Projected(input), db, v, lib, before, after);
    case Sort(input, keys) =>
      OptimizePreservesMeaning(input, db, v, lib, before, after);
      SortStep(input, Optimize(input, defs), keys, Projected(input), db, v, lib, before, after);
    case Limit(input, count, offset) =>
      OptimizePreservesMeaning(input, db, v, lib, before, after);
      LimitStep(input, Optimize(input, defs), count, offset, Projected(input), db, v, lib, before, after);
    case IndexScan(_, _, _, _, _, _) =>
  }

  lemma Ready(db: Database)
    requires StoreOk(db)
    ensures FamilyOk(db.family, db.env) && EnvOk(db.env) && NodesKeyed(db.nodes)
  {
  }

  lemma {:induction false} RewriteStep(db: Database, labels: seq<string>, e: Expression, v: string, lib: Library,
                                       before: KeyOrder, after: KeyOrder)
    requires StoreOk(db) && LibraryOk(lib) && OrderOk(before) && OrderOk(after) && PlainSet(StoredKeys(db), v)
    requires PlainExpr(e, v) && LabelsApart(db.nodes, db.graphId, labels)
    requires Answerable(db, e, v) && LookupHarmless(db, labels, e, v, lib)
    requires TryIndexScan(DefsAt(db.family, db.graphId, db.env), labels, Some(v), e).Some?
    ensures Preserved(Execute(Filter(Scan(labels, Some(v)), e), db, lib, before),
                      Execute(TryIndexScan(DefsAt(db.family, db.graphId, db.env), labels, Some(v), e).value, db, lib, after),
                      false, v, StoredKeys(db), lib)
  {
    hide *;
    Ready(db);
    var a := Execute(Filter(Scan(labels, Some(v)), e), db, lib, before);
    var b := Execute(TryIndexScan(DefsAt(db.family, db.graphId, db.env), labels, Some(v), e).value, db, lib, after);
    MakePreserved(a, b, v, StoredKeys(db), lib);
    if Execute(Filter(Scan(labels, Some(v)), e), db, lib, before).Success? {
      FilterBecomesIndexScan(db, labels, e, v, lib, before, after);
    }
  }

  lemma MakeRewritable(e: Expression, v: string, all: set<string>, db: Database)
    requires FamilyOk(db.family, db.env) && PlainSet(all, v) && PlainExpr(e, v) && Answerable(db, e, v)
    ensures RewritablePredicate(e, v)
  {
    hide PlainExpr, FamilyOk, DefsAt, ChooseIndex, Cover, Coherent, ScalarsSought, Conjuncts, Equalities, Evaluable;
  }

  lemma MakePreserved(a: QueryResult, b: QueryResult, v: string, all: set<string>, lib: Library)
    ensures (a.Success? ==> b.Success? && Equivalent(a.value, b.value, v, all, lib)) ==> Preserved(a, b, false, v, all, lib)
  {
    hide Equivalent;
  }

  // ----- why the conditions are needed -----

  /**
   A bare property name, and the equality that is rebuilt for an anonymous
   pattern, can be evaluated if and only if some scanned node happened to have
   the property: the index scan, which lists fewer nodes, may fail on it.
   */
  lemma BareNameNeedsColumn(n: Node, v: string, keys: seq<string>, p: string, lib: Library)
    requires PlainName(p, v)
    ensures Evaluate(Identifier(p), NodeRow(n, v, keys, lib), lib.rt).Success? <==> p in keys
  {
    hide NodeRow, Get, PlainName, PropertyOf;
    GetBare(n, v, keys, lib, p);
  }

  lemma AnonymousNeedsColumn(n: Node, keys: seq<string>, q: EqPredicate, lib: Library)
    requires q.value.Lit? && EvalLiteral(q.value.lit).Success? && q.property != NODE_ID && q.property != LABELS
    ensures var row := Record(ColumnsFor(None, keys), RowFor(n, None, keys, lib));
            RecordOk(row) && (Evaluate(Rebuild(None, q), row, lib.rt).Success? <==> q.property in keys)
  {
    hide EvalLiteral, ValueEq, PropertyValues, RowFor, Get;
    AnonymousColumns(keys, q.property);
    var row := Record(ColumnsFor(None, keys), RowFor(n, None, keys, lib));
    FoundIff(row, q.property);
  }

  lemma FoundIff(r: Record, name: string)
    requires RecordOk(r)
    ensures Get(r, name).Some? <==> name in r.columns
  {
    match Position(r.columns, name)
    case Some(i) => assert r.columns[i] in r.columns;
    case None =>
  }

  lemma AnonymousColumns(keys: seq<string>, p: string)
    requires p != NODE_ID && p != LABELS
    ensures p in ColumnsFor(None, keys) <==> p in keys
  {
    assert ColumnsFor(None, keys) == [NODE_ID, LABELS] + keys;
  }
}
