/** When a filtered scan becomes an index scan, and what is looked up then. */
module RewriteLaws {
  import opened Wrappers
  import opened Values
  import opened Syntax
  import opened Expressions
  import opened PropertyIndex
  import opened Plans
  import opened IndexRewrite

  /** One of the parts that AND joins. */
  predicate IsConjunct(c: Expression, e: Expression) {
    if e.Binary? && e.op.And? then IsConjunct(c, e.left) || IsConjunct(c, e.right) else c == e
  }

  /** The expression names the property of the variable: `v.p`, also when it was read as one name. */
  predicate Names(e: Expression, variable: Option<string>, p: string) {
    match variable
    case Some(v) => e == PropertyAccess(Identifier(v), p) || e == Identifier(v + "." + p)
    case None => e.PropertyAccess? && e.target.Identifier? && e.property == p
  }

  /** The conjunct equates the property with the literal, either way round. */
  predicate Equates(c: Expression, variable: Option<string>, p: string, x: Expression) {
    && c.Binary? && c.op == Eq && x.Lit?
    && ((Names(c.left, variable, p) && c.right == x) || (Names(c.right, variable, p) && c.left == x))
  }

  /** Some conjunct equates the property with the literal. */
  ghost predicate EquatedWith(e: Expression, variable: Option<string>, p: string, x: Expression) {
    exists c :: IsConjunct(c, e) && Equates(c, variable, p, x)
  }

  ghost predicate Equated(e: Expression, variable: Option<string>, p: string) {
    exists x :: EquatedWith(e, variable, p, x)
  }

  /** The index is over nodes and each of its properties, at least one, is equated. */
  ghost predicate Answers(d: IndexDefinition, e: Expression, variable: Option<string>) {
    d.entityType == NodeEntity && d.propertyNames != [] && forall p :: p in d.propertyNames ==> Equated(e, variable, p)
  }

  ghost predicate Named(eqs: seq<EqPredicate>, p: string) {
    exists q :: q in eqs && q.property == p
  }

  lemma {:induction false} ConjunctsExactly(e: Expression, c: Expression)
    ensures c in Conjuncts(e) <==> IsConjunct(c, e)
  {
    if e.Binary? && e.op.And? {
      ConjunctsExactly(e.left, c);
      ConjunctsExactly(e.right, c);
    }
  }

  lemma NamesExactly(e: Expression, variable: Option<string>, p: string)
    ensures ExtractPropertyName(e, variable) == Some(p) <==> Names(e, variable, p)
  {
    if variable.Some? && e.Identifier? {
      var start := variable.value + ".";
      if StartsWith(e.name, start) {
        assert e.name == start + e.name[|start|..];
      }
      if e.name == start + p {
        assert e.name[..|start|] == start && e.name[|start|..] == p;
      }
    }
  }

  lemma EquatesExactly(c: Expression, variable: Option<string>, p: string, x: Expression)
    ensures AsEquality(c, variable) == Some(EqPredicate(p, x)) <==> Equates(c, variable, p, x)
  {
    if c.Binary? {
      NamesExactly(c.left, variable, p);
      NamesExactly(c.right, variable, p);
      assert c.left.Lit? ==> ExtractPropertyName(c.left, variable) == None;
      assert c.right.Lit? ==> ExtractPropertyName(c.right, variable) == None;
      hide ExtractPropertyName, Names;
    }
  }

  lemma {:induction false} EqualityListed(es: seq<Expression>, variable: Option<string>, q: EqPredicate)
    ensures q in Equalities(es, variable) <==> exists c :: c in es && Equates(c, variable, q.property, q.value)
  {
    hide Equates, AsEquality;
    if es != [] {
      EqualityListed(es[1..], variable, q);
      EquatesExactly(es[0], variable, q.property, q.value);
      assert forall c :: c in es <==> c == es[0] || c in es[1..];
    }
  }

  /** The equalities that are collected name exactly the equated properties. */
  lemma EquatedExactly(e: Expression, variable: Option<string>, p: string)
    ensures Equated(e, variable, p) <==> Named(Equalities(Conjuncts(e), variable), p)
  {
    var es := Conjuncts(e);
    hide Equates, Conjuncts, IsConjunct, Equalities;
    forall c ensures c in es <==> IsConjunct(c, e) {
      ConjunctsExactly(e, c);
    }
    forall q ensures q in Equalities(es, variable) <==> exists c :: c in es && Equates(c, variable, q.property, q.value) {
      EqualityListed(es, variable, q);
    }
    if Equated(e, variable, p) {
      var x :| EquatedWith(e, variable, p, x);
      var c :| IsConjunct(c, e) && Equates(c, variable, p, x);
      var q := EqPredicate(p, x);
      assert c in es && q in Equalities(es, variable);
    } else if Named(Equalities(es, variable), p) {
      var q :| q in Equalities(es, variable) && q.property == p;
      LookedUp(e, variable, q);
      assert false;
    }
  }

  lemma FirstExactly(eqs: seq<EqPredicate>, p: string)
    ensures FirstEquality(eqs, p).Some? <==> Named(eqs, p)
  {
    var first := FirstEquality(eqs, p);
    if first.Some? {
      assert eqs[first.value] in eqs;
    }
  }

  lemma {:induction false} CoverExactly(names: seq<string>, eqs: seq<EqPredicate>)
    ensures Cover(names, eqs).Some? <==> forall p :: p in names ==> Named(eqs, p)
  {
    hide FirstEquality, Named;
    if names != [] {
      CoverExactly(names[1..], eqs);
      FirstExactly(eqs, names[0]);
      assert forall p :: p in names <==> p == names[0] || p in names[1..];
    }
  }

  lemma AnswersExactly(d: IndexDefinition, e: Expression, variable: Option<string>)
    ensures Answers(d, e, variable) <==>
              && d.entityType.NodeEntity? && d.propertyNames != []
              && Cover(d.propertyNames, Equalities(Conjuncts(e), variable)).Some?
  {
    hide Equated, Cover, Equalities, Conjuncts;
    CoverExactly(d.propertyNames, Equalities(Conjuncts(e), variable));
    forall p ensures Equated(e, variable, p) <==> Named(Equalities(Conjuncts(e), variable), p) {
      EquatedExactly(e, variable, p);
    }
  }

  /** The chosen index is the first that answers. */
  lemma {:induction false} ChosenFirst(defs: seq<IndexDefinition>, e: Expression, variable: Option<string>)
    ensures ChooseIndex(defs, Equalities(Conjuncts(e), variable)).None? ==> forall d :: d in defs ==> !Answers(d, e, variable)
    ensures forall d :: ChooseIndex(defs, Equalities(Conjuncts(e), variable)) == Some(d) ==>
              exists i :: && 0 <= i < |defs| && defs[i] == d && Answers(d, e, variable)
                          && forall j :: 0 <= j < i ==> !Answers(defs[j], e, variable)
  {
    hide Answers, Cover, Equalities, Conjuncts;
    if defs != [] {
      AnswersExactly(defs[0], e, variable);
      ChosenFirst(defs[1..], e, variable);
      assert forall d :: d in defs <==> d == defs[0] || d in defs[1..];
      var rest := ChooseIndex(defs[1..], Equalities(Conjuncts(e), variable));
      if Answers(defs[0], e, variable) {
        assert defs[0] in defs;
      } else if rest.Some? {
        var i :| 0 <= i < |defs[1..]| && defs[1..][i] == rest.value && Answers(rest.value, e, variable)
                 && forall j :: 0 <= j < i ==> !Answers(defs[1..][j], e, variable);
        assert defs[i + 1] == rest.value;
        forall j | 0 <= j < i + 1 ensures !Answers(defs[j], e, variable) {
          assert j > 0 ==> defs[j] == defs[1..][j - 1];
        }
      }
    }
  }

  /** The first equality of a property comes from a conjunct that equates it with the literal taken. */
  lemma LookedUp(e: Expression, variable: Option<string>, q: EqPredicate)
    requires q in Equalities(Conjuncts(e), variable)
    ensures EquatedWith(e, variable, q.property, q.value)
  {
    hide Equates, Conjuncts, IsConjunct, Equalities;
    EqualityListed(Conjuncts(e), variable, q);
    var c :| c in Conjuncts(e) && Equates(c, variable, q.property, q.value);
    ConjunctsExactly(e, c);
  }

  /**
   A filter over a scan becomes an index scan if and only if some index
   answers, and stays as it is otherwise.
   */
  lemma RewrittenIff(defs: seq<IndexDefinition>, labels: seq<string>, variable: Option<string>, e: Expression)
    ensures var plan := Plan.Filter(Scan(labels, variable), e);
            && (Optimize(plan, defs).IndexScan? <==> exists d :: d in defs && Answers(d, e, variable))
            && (!Optimize(plan, defs).IndexScan? ==> Optimize(plan, defs) == plan)
  {
    var eqs := Equalities(Conjuncts(e), variable);
    ChosenFirst(defs, e, variable);
    var chosen := ChooseIndex(defs, eqs);
    hide Answers, Cover, Equalities, Conjuncts, Unused, Conjoin, Others, ChooseIndex;
    if chosen.Some? {
      AnswersExactly(chosen.value, e, variable);
    }
  }

  /**
   Then the first index that answers is scanned, with the scan's labels, for a
   literal that some conjunct equates with each of its properties in turn.
   */
  lemma RewrittenTo(defs: seq<IndexDefinition>, labels: seq<string>, variable: Option<string>, e: Expression) returns (i: nat)
    requires exists d :: d in defs && Answers(d, e, variable)
    ensures i < |defs| && Answers(defs[i], e, variable) && forall j :: 0 <= j < i ==> !Answers(defs[j], e, variable)
    ensures var r := Optimize(Plan.Filter(Scan(labels, variable), e), defs);
            && r.IndexScan? && r.indexName == defs[i].name && r.labels == labels && r.variable == variable
            && r.lookupProperties == defs[i].propertyNames && |r.lookupValues| == |defs[i].propertyNames|
            && forall k :: 0 <= k < |r.lookupValues| ==>
                 EquatedWith(e, variable, defs[i].propertyNames[k], r.lookupValues[k])
  {
    hide *;
    i := Chosen(defs, e, variable);
    ScanOf(defs, labels, variable, e, defs[i]);
  }

  lemma Chosen(defs: seq<IndexDefinition>, e: Expression, variable: Option<string>) returns (i: nat)
    requires exists d :: d in defs && Answers(d, e, variable)
    ensures i < |defs| && Answers(defs[i], e, variable) && forall j :: 0 <= j < i ==> !Answers(defs[j], e, variable)
    ensures ChooseIndex(defs, Equalities(Conjuncts(e), variable)) == Some(defs[i])
  {
    hide *;
    ChosenFirst(defs, e, variable);
    var chosen := ChooseIndex(defs, Equalities(Conjuncts(e), variable)).value;
    i :| 0 <= i < |defs| && defs[i] == chosen && Answers(chosen, e, variable)
         && forall j :: 0 <= j < i ==> !Answers(defs[j], e, variable);
  }

  lemma ScanOf(defs: seq<IndexDefinition>, labels: seq<string>, variable: Option<string>, e: Expression, d: IndexDefinition)
    requires ChooseIndex(defs, Equalities(Conjuncts(e), variable)) == Some(d) && Answers(d, e, variable)
    ensures var r := Optimize(Plan.Filter(Scan(labels, variable), e), defs);
            && r.IndexScan? && r.indexName == d.name && r.labels == labels && r.variable == variable
            && r.lookupProperties == d.propertyNames && |r.lookupValues| == |d.propertyNames|
            && forall k :: 0 <= k < |r.lookupValues| ==>
                 EquatedWith(e, variable, d.propertyNames[k], r.lookupValues[k])
  {
    var eqs := Equalities(Conjuncts(e), variable);
    AnswersExactly(d, e, variable);
    hide Answers, Cover, Equalities, Conjuncts, Unused, Conjoin, Others, ChooseIndex, EquatedWith;
    var used := Cover(d.propertyNames, eqs).value;
    forall k | 0 <= k < |used|
      ensures EquatedWith(e, variable, d.propertyNames[k], eqs[used[k]].value)
    {
      assert eqs[used[k]] in eqs;
      LookedUp(e, variable, eqs[used[k]]);
    }
  }

  /** Nowhere in the plan does a filter stand over a scan that some index answers. */
  ghost predicate Settled(plan: Plan, defs: seq<IndexDefinition>) {
    match plan
    case Filter(input, e) =>
      Settled(input, defs) && (input.Scan? ==> forall d :: d in defs ==> !Answers(d, e, input.variable))
    case Project(input, _, _) => Settled(input, defs)
    case Sort(input, _) => Settled(input, defs)
    case Limit(input, _, _) => Settled(input, defs)
    case _ => true
  }

  /** The optimizer leaves no such filter, wherever it stood. */
  lemma {:induction false} OptimizeSettles(plan: Plan, defs: seq<IndexDefinition>)
    ensures Settled(Optimize(plan, defs), defs)
    decreases plan
  {
    hide Answers, TryIndexScan;
    match plan
    case Filter(input, e) =>
      OptimizeSettles(input, defs);
      var input' := Optimize(input, defs);
      if input'.Scan? {
        RewrittenIff(defs, input'.labels, input'.variable, e);
      }
      RewriteGivesIndexScan(defs, e);
    case Project(input, _, _) => OptimizeSettles(input, defs);
    case Sort(input, _) => OptimizeSettles(input, defs);
    case Limit(input, _, _) => OptimizeSettles(input, defs);
    case _ =>
  }

  lemma RewriteGivesIndexScan(defs: seq<IndexDefinition>, e: Expression)
    ensures forall labels, variable :: TryIndexScan(defs, labels, variable, e).Some? ==>
              TryIndexScan(defs, labels, variable, e).value.IndexScan?
  {
    hide Cover, Equalities, Conjuncts, Unused, Conjoin, Others, ChooseIndex;
  }
}
