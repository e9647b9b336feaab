/**
 The plan rewrite that turns a filtered scan into an index scan: equality
 conjuncts are answered by an index, the others are reordered behind the
 remaining equalities.
 */
module IndexRewrite {
  import opened Bytes
  import opened Wrappers
  import opened Values
  import opened Syntax
  import opened Expressions
  import opened GraphKeys
  import opened PropertyIndex
  import opened Plans
  import opened PatternRows

  datatype EqPredicate = EqPredicate(property: string, value: Expression)

  /** The conjuncts of an AND chain, left to right. */
  function Conjuncts(e: Expression): (r: seq<Expression>)
    ensures |r| > 0
  {
    if e.Binary? && e.op.And? then Conjuncts(e.left) + Conjuncts(e.right) else [e]
  }

  /** The property that `v.prop`, or an identifier spelled that way, names. */
  function ExtractPropertyName(e: Expression, variable: Option<string>): Option<string> {
    match e
    case PropertyAccess(t, p) =>
      if t.Identifier? && (variable.Some? ==> variable.value == t.name) then Some(p) else None
    case Identifier(name) =>
      if variable.Some? && StartsWith(name, variable.value + ".") then Some(name[|variable.value| + 1..]) else None
    case _ => None
  }

  /** A conjunct that equates a property with a literal, either way round. */
  function AsEquality(e: Expression, variable: Option<string>): Option<EqPredicate> {
    if !(e.Binary? && e.op.Eq?) then None
    else
      var l, r := ExtractPropertyName(e.left, variable), ExtractPropertyName(e.right, variable);
      if l.Some? && e.right.Lit? then Some(EqPredicate(l.value, e.right))
      else if r.Some? && e.left.Lit? then Some(EqPredicate(r.value, e.left))
      else None
  }

  function Equalities(es: seq<Expression>, variable: Option<string>): seq<EqPredicate> {
    if es == [] then []
    else (match AsEquality(es[0], variable) case Some(q) => [q] case None => []) + Equalities(es[1..], variable)
  }

  function Others(es: seq<Expression>, variable: Option<string>): seq<Expression> {
    if es == [] then []
    else (if AsEquality(es[0], variable).None? then [es[0]] else []) + Others(es[1..], variable)
  }

  function FirstEquality(eqs: seq<EqPredicate>, property: string): (r: Option<nat>)
    ensures r.Some? ==> r.value < |eqs| && eqs[r.value].property == property
    ensures r.Some? ==> forall i :: 0 <= i < r.value ==> eqs[i].property != property
    ensures r.None? ==> forall i :: 0 <= i < |eqs| ==> eqs[i].property != property
  {
    if eqs == [] then None
    else if eqs[0].property == property then Some(0)
    else match FirstEquality(eqs[1..], property) case None => None case Some(i) => Some(i + 1)
  }

  /** Where the equalities stand that cover all indexed properties, if all are covered. */
  function Cover(names: seq<string>, eqs: seq<EqPredicate>): (r: Option<seq<nat>>)
    ensures r.Some? ==> |r.value| == |names|
    ensures r.Some? ==> forall j :: 0 <= j < |names| ==> r.value[j] < |eqs| && eqs[r.value[j]].property == names[j]
  {
    if names == [] then Some([])
    else
      match FirstEquality(eqs, names[0])
      case None => None
      case Some(i) => match Cover(names[1..], eqs) case None => None case Some(rest) => Some([i] + rest)
  }

  function Rebuild(variable: Option<string>, q: EqPredicate): Expression {
    var left := match variable
      case Some(v) => PropertyAccess(Identifier(v), q.property)
      case None => Identifier(q.property);
    Expression.Binary(left, Eq, q.value)
  }

  /** The equalities an index does not answer, rebuilt. */
  function Unused(eqs: seq<EqPredicate>, used: seq<nat>, from: nat, variable: Option<string>): seq<Expression>
    requires from <= |eqs|
    decreases |eqs| - from
  {
    if from == |eqs| then []
    else (if from in used then [] else [Rebuild(variable, eqs[from])]) + Unused(eqs, used, from + 1, variable)
  }

  /** All parts joined by AND, to the left. */
  function Conjoin(parts: seq<Expression>): Option<Expression> {
    if parts == [] then None
    else
      var n := |parts| - 1;
      match Conjoin(parts[..n])
      case None => Some(parts[n])
      case Some(e) => Some(Expression.Binary(e, And, parts[n]))
  }

  function LookupValues(eqs: seq<EqPredicate>, used: seq<nat>): (r: seq<Expression>)
    requires Indices(used, |eqs|)
    ensures |r| == |used| && forall j :: 0 <= j < |used| ==> r[j] == eqs[used[j]].value
  {
    seq(|used|, j requires 0 <= j < |used| => eqs[used[j]].value)
  }

  /** The first node index all of whose properties, at least one, are equated with literals. */
  function ChooseIndex(defs: seq<IndexDefinition>, eqs: seq<EqPredicate>): Option<IndexDefinition> {
    if defs == [] then None
    else if defs[0].entityType.NodeEntity? && defs[0].propertyNames != [] && Cover(defs[0].propertyNames, eqs).Some? then
      Some(defs[0])
    else ChooseIndex(defs[1..], eqs)
  }

  function TryIndexScan(defs: seq<IndexDefinition>, labels: seq<string>, variable: Option<string>, predicate_: Expression):
    Option<Plan>
  {
    var eqs := Equalities(Conjuncts(predicate_), variable);
    match ChooseIndex(defs, eqs)
    case None => None
    case Some(def) =>
      match Cover(def.propertyNames, eqs)
      case None => None
      case Some(used) =>
        var remaining := Conjoin(Unused(eqs, used, 0, variable) + Others(Conjuncts(predicate_), variable));
        Some(IndexScan(def.name, labels, variable, def.propertyNames, LookupValues(eqs, used), remaining))
  }

  function Optimize(plan: Plan, defs: seq<IndexDefinition>): Plan {
    match plan
    case Filter(input, e) =>
      var input' := Optimize(input, defs);
      var rewritten := if input'.Scan? then TryIndexScan(defs, input'.labels, input'.variable, e) else None;
      if rewritten.Some? then rewritten.value else Filter(input', e)
    case Project(input, es, aliases) => Project(Optimize(input, defs), es, aliases)
    case Sort(input, keys) => Sort(Optimize(input, defs), keys)
    case Limit(input, count, offset) => Limit(Optimize(input, defs), count, offset)
    case Scan(_, _) => plan
    case IndexScan(_, _, _, _, _, _) => plan
  }

  // ----- the code's loops -----

  /** Fills the two vectors from an AND chain, in order. */
  method ExtractEqPredicates(e: Expression, variable: Option<string>, eqs: seq<EqPredicate>, others: seq<Expression>)
    returns (eqs': seq<EqPredicate>, others': seq<Expression>)
    ensures eqs' == eqs + Equalities(Conjuncts(e), variable)
    ensures others' == others + Others(Conjuncts(e), variable)
    decreases e
  {
    hide Equalities, Others;
    if e.Binary? && e.op.And? {
      EqualitiesConcat(Conjuncts(e.left), Conjuncts(e.right), variable);
      OthersConcat(Conjuncts(e.left), Conjuncts(e.right), variable);
      eqs', others' := ExtractEqPredicates(e.left, variable, eqs, others);
      eqs', others' := ExtractEqPredicates(e.right, variable, eqs', others');
    } else {
      OneConjunct(e, variable);
      eqs', others' := eqs, others;
      if e.Binary? && e.op.Eq? {
        var left := ExtractPropertyName(e.left, variable);
        if left.Some? && e.right.Lit? {
          eqs' := eqs' + [EqPredicate(left.value, e.right)];
          return;
        }
        var right := ExtractPropertyName(e.right, variable);
        if right.Some? && e.left.Lit? {
          eqs' := eqs' + [EqPredicate(right.value, e.left)];
          return;
        }
      }
      others' := others' + [e];
    }
  }

  lemma {:induction false} EqualitiesConcat(a: seq<Expression>, b: seq<Expression>, variable: Option<string>)
    ensures Equalities(a + b, variable) == Equalities(a, variable) + Equalities(b, variable)
  {
    hide AsEquality;
    if a == [] {
      assert a + b == b;
    } else {
      assert (a + b)[0] == a[0] && (a + b)[1..] == a[1..] + b;
      EqualitiesConcat(a[1..], b, variable);
    }
  }

  lemma {:induction false} OthersConcat(a: seq<Expression>, b: seq<Expression>, variable: Option<string>)
    ensures Others(a + b, variable) == Others(a, variable) + Others(b, variable)
  {
    hide AsEquality;
    if a == [] {
      assert a + b == b;
    } else {
      assert (a + b)[0] == a[0] && (a + b)[1..] == a[1..] + b;
      OthersConcat(a[1..], b, variable);
      var head := if AsEquality(a[0], variable).Some? then [] else [a[0]];
      assert head + (Others(a[1..], variable) + Others(b, variable)) == head + Others(a[1..], variable) + Others(b, variable);
    }
  }

  lemma OneConjunct(e: Expression, variable: Option<string>)
    ensures Equalities([e], variable) == (match AsEquality(e, variable) case Some(q) => [q] case None => [])
    ensures Others([e], variable) == (if AsEquality(e, variable).None? then [e] else [])
  {
    hide AsEquality;
    assert [e][1..] == [];
  }

  /** The equalities found so far, followed by those of the remaining names. */
  function Continued(names: seq<string>, eqs: seq<EqPredicate>, used: seq<nat>): Option<seq<nat>> {
    match Cover(names, eqs) case None => None case Some(rest) => Some(used + rest)
  }

  lemma ContinuedStep(names: seq<string>, eqs: seq<EqPredicate>, used: seq<nat>)
    requires names != []
    ensures Continued(names, eqs, used) ==
              match FirstEquality(eqs, names[0])
              case None => None
              case Some(i) => Continued(names[1..], eqs, used + [i])
  {
    hide FirstEquality;
    var first, rest := FirstEquality(eqs, names[0]), Cover(names[1..], eqs);
    if first.Some? && rest.Some? {
      assert used + ([first.value] + rest.value) == (used + [first.value]) + rest.value;
    }
  }

  /** The equality of each indexed property in turn, stopping at one that has none. */
  method FindCover(names: seq<string>, eqs: seq<EqPredicate>) returns (covered: bool, used: seq<nat>)
    ensures covered <==> Cover(names, eqs).Some?
    ensures covered ==> used == Cover(names, eqs).value
  {
    hide FirstEquality;
    used := [];
    var j := 0;
    assert names[0..] == names;
    assert Cover(names, eqs).Some? ==> [] + Cover(names, eqs).value == Cover(names, eqs).value;
    while j < |names|
      invariant 0 <= j <= |names| && Continued(names[j..], eqs, used) == Cover(names, eqs)
    {
      ContinuedStep(names[j..], eqs, used);
      assert names[j..][0] == names[j] && names[j..][1..] == names[j + 1..];
      var found := FirstEquality(eqs, names[j]);
      if found.None? {
        return false, [];
      }
      used := used + [found.value];
      j := j + 1;
    }
    assert used + [] == used;
    return true, used;
  }

  /** Joins the parts by AND in a left fold. */
  method Reduce(parts: seq<Expression>) returns (e: Option<Expression>)
    ensures e == Conjoin(parts)
  {
    e := None;
    var i := 0;
    while i < |parts|
      invariant 0 <= i <= |parts| && e == Conjoin(parts[..i])
    {
      assert parts[..i + 1][..i] == parts[..i];
      e := if e.None? then Some(parts[i]) else Some(Expression.Binary(e.value, And, parts[i]));
      i := i + 1;
    }
    assert parts[..i] == parts;
  }

  method CollectUnused(eqs: seq<EqPredicate>, used: seq<nat>, variable: Option<string>) returns (parts: seq<Expression>)
    ensures parts == Unused(eqs, used, 0, variable)
  {
    parts := [];
    var i := 0;
    while i < |eqs|
      invariant 0 <= i <= |eqs| && parts + Unused(eqs, used, i, variable) == Unused(eqs, used, 0, variable)
    {
      if i !in used {
        parts := parts + [Rebuild(variable, eqs[i])];
      }
      i := i + 1;
    }
  }

  method TryRewrite(defs: seq<IndexDefinition>, labels: seq<string>, variable: Option<string>, predicate_: Expression)
    returns (plan: Option<Plan>)
    ensures plan == TryIndexScan(defs, labels, variable, predicate_)
  {
    hide Equalities, Others, Cover, Conjuncts, Unused, Conjoin;
    var eqs, others := ExtractEqPredicates(predicate_, variable, [], []);
    assert eqs == Equalities(Conjuncts(predicate_), variable) && others == Others(Conjuncts(predicate_), variable);
    if eqs == [] {
      NothingToChoose(defs);
      return None;
    }
    var i := 0;
    assert defs[0..] == defs;
    while i < |defs|
      invariant 0 <= i <= |defs| && ChooseIndex(defs[i..], eqs) == ChooseIndex(defs, eqs)
    {
      assert defs[i..][1..] == defs[i + 1..];
      if defs[i].entityType.NodeEntity? {
        var covered, used := FindCover(defs[i].propertyNames, eqs);
        if covered && defs[i].propertyNames != [] {
          var parts := CollectUnused(eqs, used, variable);
          var remaining := Reduce(parts + others);
          return Some(IndexScan(defs[i].name, labels, variable, defs[i].propertyNames, LookupValues(eqs, used), remaining));
        }
      }
      i := i + 1;
    }
    return None;
  }

  lemma {:induction false} NothingToChoose(defs: seq<IndexDefinition>)
    ensures ChooseIndex(defs, []) == None
  {
    if defs != [] {
      NothingToChoose(defs[1..]);
    }
  }
}
