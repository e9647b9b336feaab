/**
 Exactly when an index lookup and the equalities it stands for disagree: one
 stored value and one literal, then one node and a tuple of literals.
 */
module LookupAnswers {
  import opened Bytes
  import opened Wrappers
  import opened Values
  import opened ValueCodec
  import opened Syntax
  import opened Expressions
  import opened GraphKeys
  import opened PropertyIndex
  import opened IndexScans
  import opened Plans
  import opened PatternRows
  import opened IndexRewrite
  import opened RewriteMeaning

  // ----- one value, one literal -----

  /** One of them is a NaN, so they are not equal, yet they are encoded alike. */
  predicate Twins(x: Value, lit: Value) {
    x.Float? && lit.Float? && (IsNaN(x.bits) || IsNaN(lit.bits)) && FloatImage(x.bits) == FloatImage(lit.bits)
  }

  /** The two zeros: equal, yet encoded apart. */
  predicate OppositeZeros(x: Value, lit: Value) {
    x.Float? && lit.Float? && IsZero(x.bits) && IsZero(lit.bits) && x.bits != lit.bits
  }

  predicate Confused(x: Value, lit: Value) {
    Twins(x, lit) || OppositeZeros(x, lit)
  }

  lemma EqualOrdinary(x: Value, lit: Value)
    requires Tag(lit) != 0xFF && ValueEq(x, lit)
    ensures x == lit || OppositeZeros(x, lit)
    ensures x == lit ==> !Twins(x, lit)
  {
  }

  lemma OppositeZerosApart(x: Value, lit: Value, codec: Codec)
    requires OppositeZeros(x, lit)
    ensures ValueEq(x, lit) && EncodeValue(x, codec) != EncodeValue(lit, codec)
  {
    U64RoundTrip(FloatImage(x.bits));
    U64RoundTrip(FloatImage(lit.bits));
    hide U64Bytes, U64Value;
    assert EncodeValue(x, codec)[1..] == U64Bytes(FloatImage(x.bits));
    assert EncodeValue(lit, codec)[1..] == U64Bytes(FloatImage(lit.bits));
  }

  lemma EncodedFloats(x: Value, lit: Value, codec: Codec)
    requires lit.Float? && EncodeValue(x, codec) == EncodeValue(lit, codec)
    ensures x.Float? && FloatImage(x.bits) == FloatImage(lit.bits)
  {
    TailsEqual(Tag(x), Payload(x, codec), Tag(lit), Payload(lit, codec));
    hide U64Bytes, U64Value, FloatImage;
    U64RoundTrip(FloatImage(x.bits));
    U64RoundTrip(FloatImage(lit.bits));
  }

  /**
   For every stored value and every scalar literal: they are encoded alike but
   not equal exactly when one is a NaN with the other's image, and equal but
   encoded apart exactly when they are the two zeros. So the encoding decides
   equality if and only if the two are not confused.
   */
  lemma SameEncodingIffEqual(x: Value, lit: Value, codec: Codec)
    requires Tag(lit) != 0xFF && Fits(x, codec) && Fits(lit, codec)
    ensures EncodeValue(x, codec) == EncodeValue(lit, codec) && !ValueEq(x, lit) <==> Twins(x, lit)
    ensures ValueEq(x, lit) && EncodeValue(x, codec) != EncodeValue(lit, codec) <==> OppositeZeros(x, lit)
    ensures (EncodeValue(x, codec) == EncodeValue(lit, codec) <==> ValueEq(x, lit)) <==> !Confused(x, lit)
  {
    hide EncodeValue, FloatImage;
    if ValueEq(x, lit) {
      EqualOrdinary(x, lit);
    }
    if OppositeZeros(x, lit) {
      OppositeZerosApart(x, lit, codec);
    }
    if Twins(x, lit) {
      TwinsAlike(x, lit, codec);
    }
    if EncodeValue(x, codec) == EncodeValue(lit, codec) {
      AlikeIsEqualOrTwins(x, lit, codec);
    }
  }

  lemma TwinsAlike(x: Value, lit: Value, codec: Codec)
    requires Twins(x, lit)
    ensures EncodeValue(x, codec) == EncodeValue(lit, codec) && !ValueEq(x, lit)
  {
  }

  lemma AlikeIsEqualOrTwins(x: Value, lit: Value, codec: Codec)
    requires Tag(lit) != 0xFF && Fits(x, codec) && Fits(lit, codec)
    requires EncodeValue(x, codec) == EncodeValue(lit, codec)
    ensures ValueEq(x, lit) || Twins(x, lit)
  {
    hide FloatImage;
    if lit.Float? {
      EncodedFloats(x, lit, codec);
    }
    if x.Float? {
      EncodedFloats(lit, x, codec);
    }
    if !Twins(x, lit) {
      hide EncodeValue, FloatImage;
      ScalarInjective(lit, x, codec);
    }
  }

  /** The literals some stored NaN is taken for: the two zeros and the subnormals from zero up, short of the greatest. */
  lemma NaNTakenFor(lit: u64)
    requires !IsNaN(lit)
    ensures (exists bits: u64 :: Twins(Float(bits), Float(lit))) <==> lit == SIGN_BIT || lit < 0x000F_FFFF_FFFF_FFFF
  {
    if lit < 0x000F_FFFF_FFFF_FFFF {
      assert Twins(Float(0x7FFF_FFFF_FFFF_FFFF - lit), Float(lit));
    }
    if lit == SIGN_BIT {
      assert Twins(Float(U64_MAX), Float(lit));
    }
  }

  // ----- one node, a tuple of literals -----

  /** The equality holds and the encodings agree. */
  predicate Same(x: Value, lit: Value) {
    ValueEq(x, lit) && !OppositeZeros(x, lit)
  }

  /** The lookup finds values that do not satisfy all equalities. */
  ghost predicate FoundWrongly(vs: seq<Value>, ws: seq<Value>)
    requires |vs| == |ws|
  {
    && (forall j :: 0 <= j < |vs| ==> Twins(vs[j], ws[j]) || Same(vs[j], ws[j]))
    && exists j :: 0 <= j < |vs| && Twins(vs[j], ws[j])
  }

  /** The equalities hold of values that the lookup does not find: a zero of the other sign, or no entry at all. */
  ghost predicate MissedWrongly(vs: seq<Value>, ws: seq<Value>, indexed: bool)
    requires |vs| == |ws|
  {
    && (forall j :: 0 <= j < |vs| ==> OppositeZeros(vs[j], ws[j]) || Same(vs[j], ws[j]))
    && (!indexed || exists j :: 0 <= j < |vs| && OppositeZeros(vs[j], ws[j]))
  }

  lemma {:induction false} SameEncodings(vs: seq<Value>, ws: seq<Value>, codec: Codec)
    requires |vs| == |ws| && forall i :: 0 <= i < |vs| ==> EncodeValue(vs[i], codec) == EncodeValue(ws[i], codec)
    ensures EncodeValues(vs, codec) == EncodeValues(ws, codec)
  {
    hide EncodeValue;
    if vs != [] {
      SameEncodings(vs[1..], ws[1..], codec);
    }
  }

  lemma IndexedIsProperty(def: IndexDefinition, n: Node, j: nat)
    requires j < |def.propertyNames|
    ensures IndexedValues(def, n)[j] == PropertyOf(NodeValue(n), def.propertyNames[j])
    ensures !IndexedValues(def, n)[j].Null? ==> HasIndexed(def, n)
  {
    hide LabelList;
  }

  /** The equalities that cover the index, and the scalars they look up. */
  ghost predicate Covering(def: IndexDefinition, eqs: seq<EqPredicate>, used: seq<nat>, values: seq<Value>) {
    && AllEvaluable(eqs) && Indices(used, |eqs|) && |used| == |def.propertyNames| == |values| && def.propertyNames != []
    && forall j :: 0 <= j < |used| ==>
         && eqs[used[j]].property == def.propertyNames[j] && values[j] == LiteralValue(eqs[used[j]].value)
         && Tag(values[j]) != 0xFF
  }

  /** One position of the tuple: what its encoding says and what its equality says. */
  lemma EachJudged(def: IndexDefinition, eqs: seq<EqPredicate>, used: seq<nat>, values: seq<Value>, n: Node, j: nat,
                   env: Env)
    requires EnvOk(env) && Covering(def, eqs, used, values) && j < |used|
    ensures var x, w := IndexedValues(def, n)[j], values[j];
            && (EncodeValue(x, env.codec) == EncodeValue(w, env.codec) <==> Twins(x, w) || Same(x, w))
            && (Holds(eqs[used[j]], n) <==> OppositeZeros(x, w) || Same(x, w))
            && !(Twins(x, w) && ValueEq(x, w))
            && (Confused(x, w) ==> HasIndexed(def, n))
  {
    hide EncodeValue, EvalLiteral, IndexedValues, PropertyOf, NodeValue, HasIndexed, ValueEq, FloatImage;
    IndexedIsProperty(def, n, j);
    SameEncodingIffEqual(IndexedValues(def, n)[j], values[j], env.codec);
  }

  lemma MatchesEncoded(def: IndexDefinition, values: seq<Value>, n: Node, env: Env)
    requires EnvOk(env) && |values| == |def.propertyNames|
    ensures Matches(def, EncodeValues(values, env.codec), env, n) <==>
              HasIndexed(def, n)
              && forall j :: 0 <= j < |values| ==> EncodeValue(IndexedValues(def, n)[j], env.codec) == EncodeValue(values[j], env.codec)
  {
    hide EncodeValue, HasIndexed, IndexedValues;
    var vs := IndexedValues(def, n);
    if EncodeProperties(def, n, env) == EncodeValues(values, env.codec) {
      hide EncodeValues;
      TupleDelimits(vs, [], values, [], env.codec);
    }
    if forall j :: 0 <= j < |values| ==> EncodeValue(vs[j], env.codec) == EncodeValue(values[j], env.codec) {
      SameEncodings(vs, values, env.codec);
    }
  }

  /**
   An index lookup and the equalities that cover the index disagree about a node
   exactly so: the lookup finds it wrongly if and only if some value is a NaN
   taken for its literal and every other one agrees; it misses it wrongly if and
   only if some value is the other zero, or nothing is indexed at all, and every
   other one agrees.
   */
  lemma LookupJudgedExactly(def: IndexDefinition, eqs: seq<EqPredicate>, used: seq<nat>, values: seq<Value>, n: Node,
                            env: Env)
    requires EnvOk(env) && Covering(def, eqs, used, values)
    ensures var matches := Matches(def, EncodeValues(values, env.codec), env, n);
            && (matches && !AllHold(eqs, used, n) <==> FoundWrongly(IndexedValues(def, n), values))
            && (!matches && AllHold(eqs, used, n) <==> MissedWrongly(IndexedValues(def, n), values, HasIndexed(def, n)))
  {
    var vs := IndexedValues(def, n);
    hide EncodeValue, EncodeValues, HasIndexed, Evaluable, Holds, IndexedValues, Matches, Twins, OppositeZeros, ValueEq;
    MatchesEncoded(def, values, n, env);
    forall j | 0 <= j < |used|
      ensures EncodeValue(vs[j], env.codec) == EncodeValue(values[j], env.codec) <==> Twins(vs[j], values[j]) || Same(vs[j], values[j])
      ensures Holds(eqs[used[j]], n) <==> OppositeZeros(vs[j], values[j]) || Same(vs[j], values[j])
      ensures !(Twins(vs[j], values[j]) && ValueEq(vs[j], values[j]))
      ensures OppositeZeros(vs[j], values[j]) ==> ValueEq(vs[j], values[j]) && !Same(vs[j], values[j])
      ensures Confused(vs[j], values[j]) ==> HasIndexed(def, n)
    {
      EachJudged(def, eqs, used, values, n, j, env);
      ZerosEqual(vs[j], values[j]);
    }
  }

  lemma ZerosEqual(x: Value, lit: Value)
    ensures OppositeZeros(x, lit) ==> ValueEq(x, lit)
  {
  }

  /**
   No disagreement where some looked-up literal is not null and no value is
   confused with its literal; a lookup of nulls only misses the nodes that
   lack every indexed property.
   */
  lemma AgreeUnlessConfused(def: IndexDefinition, eqs: seq<EqPredicate>, used: seq<nat>, values: seq<Value>, n: Node,
                            env: Env)
    requires EnvOk(env) && Covering(def, eqs, used, values)
    requires forall j :: 0 <= j < |values| ==> !Confused(IndexedValues(def, n)[j], values[j])
    ensures (Matches(def, EncodeValues(values, env.codec), env, n) <==> AllHold(eqs, used, n)) <==>
              (HasIndexed(def, n) || exists j :: 0 <= j < |values| && !values[j].Null?)
  {
    hide EncodeValue, EncodeValues, Evaluable, Holds, IndexedValues, Matches;
    LookupJudgedExactly(def, eqs, used, values, n, env);
    forall j | 0 <= j < |values| && !HasIndexed(def, n) ensures IndexedValues(def, n)[j] == Null {
      IndexedIsProperty(def, n, j);
    }
  }

  // ----- failing inputs -----

  /** A stored `-0.0` satisfies `v.p = 0.0`, and the lookup of `0.0` misses it. */
  lemma NegativeZeroIsMissed(def: IndexDefinition, n: Node, v: string, p: string, env: Env, lib: Library)
    requires EnvOk(env) && PlainVariable(v) && PlainName(p, v) && def.propertyNames == [p]
    requires p in n.properties && n.properties[p] == Float(SIGN_BIT)
    ensures Judge(Expression.Binary(PropertyAccess(Identifier(v), p), Eq, Lit(LitFloat(0))), n, v, lib).Truthy?
    ensures !Matches(def, EncodeValues([Float(0)], env.codec), env, n)
  {
    hide NodeRow, PlainName, EncodeValue, EncodeValues;
    AccessMeaning(p, n, v, lib);
    EqualityStep(Expression.Binary(PropertyAccess(Identifier(v), p), Eq, Lit(LitFloat(0))), n, v, lib);
    MatchesEncoded(def, [Float(0)], n, env);
    assert IndexedValues(def, n)[0] == Float(SIGN_BIT) && [Float(0)][0] == Float(0);
    OppositeZerosApart(Float(SIGN_BIT), Float(0), env.codec);
  }

  /** A stored NaN does not satisfy `v.p = 0.0`, and the lookup of `0.0` finds it. */
  lemma NaNIsFound(def: IndexDefinition, n: Node, v: string, p: string, env: Env, lib: Library)
    requires EnvOk(env) && PlainVariable(v) && PlainName(p, v) && def.propertyNames == [p]
    requires p in n.properties && n.properties[p] == Float(0x7FFF_FFFF_FFFF_FFFF)
    ensures Judge(Expression.Binary(PropertyAccess(Identifier(v), p), Eq, Lit(LitFloat(0))), n, v, lib).Falsey?
    ensures Matches(def, EncodeValues([Float(0)], env.codec), env, n)
  {
    hide NodeRow, PlainName, EncodeValue, EncodeValues;
    AccessMeaning(p, n, v, lib);
    EqualityStep(Expression.Binary(PropertyAccess(Identifier(v), p), Eq, Lit(LitFloat(0))), n, v, lib);
    MatchesEncoded(def, [Float(0)], n, env);
    TwinsAlike(Float(0x7FFF_FFFF_FFFF_FFFF), Float(0), env.codec);
  }

  /** A node that lacks every indexed property satisfies `v.p = null` and is in no lookup. */
  lemma NullIsNotSearched(def: IndexDefinition, n: Node, v: string, encoded: Bytes, env: Env, p: string, lib: Library)
    requires PlainVariable(v) && PlainName(p, v) && !HasIndexed(def, n) && p !in n.properties
    ensures Judge(Expression.Binary(PropertyAccess(Identifier(v), p), Eq, Lit(LitNull)), n, v, lib).Truthy?
    ensures !Matches(def, encoded, env, n)
  {
    hide NodeRow, PlainName;
    AccessMeaning(p, n, v, lib);
    EqualityStep(Expression.Binary(PropertyAccess(Identifier(v), p), Eq, Lit(LitNull)), n, v, lib);
  }
}
