/**
 * The `Reduce` fusion rule of the MIR optimizer: a `Reduce` directly on top
 * of another `Reduce` is simplified when the outer group key only names
 * columns of the inner group key. With no aggregates on either side the inner
 * `Reduce` becomes a `Map` and a `Project`; a `SumInt64` of an inner `Count`
 * becomes a single `Count` cast to decimal.
 *
 * Relation expressions are values here. The optimizer rewrites them in place
 * through `&mut`; `Action` returns the rewritten expression instead.
 */
module ReduceFusion {
  import opened Results

  datatype UnaryFunc = CastInt64ToDecimal | OtherUnary(code: nat)

  /** `MirScalarExpr`, cut down to what the rule looks at. */
  datatype Scalar =
    | Column(index: nat)
    | Literal(value: int)
    | CallUnary(func: UnaryFunc, expr: Scalar)

  datatype AggregateFunc = Count | SumInt64 | OtherAggregate(code: nat)

  datatype AggregateExpr = AggregateExpr(func: AggregateFunc, expr: Scalar, distinct: bool)

  /**
   * `MirRelationExpr`: the operators the rule builds or inspects, and every
   * other operator as `Other`, which only carries its arity and its inputs.
   */
  datatype Relation =
    | Get(arity: nat)
    | Reduce(input: Relation, groupKey: seq<Scalar>, aggregates: seq<AggregateExpr>,
             monotonic: bool, expectedGroupSize: Option<nat>)
    | Map(input: Relation, scalars: seq<Scalar>)
    | Project(input: Relation, outputs: seq<nat>)
    | Other(arity: nat, inputs: seq<Relation>)

  /** The number of columns a relation produces. */
  function Arity(r: Relation): nat
  {
    match r
    case Get(a) => a
    case Reduce(_, key, aggs, _, _) => |key| + |aggs|
    case Map(input, scalars) => Arity(input) + |scalars|
    case Project(_, outputs) => |outputs|
    case Other(a, _) => a
  }

  /** Every column `s` refers to is below `arity`. */
  predicate ScalarBelow(s: Scalar, arity: nat)
  {
    match s
    case Column(i) => i < arity
    case Literal(_) => true
    case CallUnary(_, e) => ScalarBelow(e, arity)
  }

  /**
   * Every column reference is in range: a `Map` scalar may also use the
   * scalars before it, a `Project` picks existing columns.
   */
  predicate WellFormed(r: Relation)
  {
    match r
    case Get(_) => true
    case Reduce(input, key, aggs, _, _) =>
      && WellFormed(input)
      && (forall k :: k in key ==> ScalarBelow(k, Arity(input)))
      && (forall g :: g in aggs ==> ScalarBelow(g.expr, Arity(input)))
    case Map(input, scalars) =>
      && WellFormed(input)
      && forall j :: 0 <= j < |scalars| ==> ScalarBelow(scalars[j], Arity(input) + j)
    case Project(input, outputs) =>
      && WellFormed(input)
      && forall o :: o in outputs ==> o < Arity(input)
    case Other(_, inputs) =>
      forall i :: 0 <= i < |inputs| ==> WellFormed(inputs[i])
  }

  // ---------------------------------------------------------------------
  // The rule as a function of the expression

  /** The outer key names only columns, each of which is also an inner key. */
  predicate KeySubset(outerKey: seq<Scalar>, innerKey: seq<Scalar>)
  {
    forall k :: k in outerKey ==> k.Column? && k in innerKey
  }

  /** The non-column expressions of the inner key, in key order. */
  function KeyScalars(key: seq<Scalar>): (r: seq<Scalar>)
    ensures |r| <= |key|
  {
    if key == [] then []
    else (if key[0].Column? then [] else [key[0]]) + KeyScalars(key[1..])
  }

  /** The column keys' indices, in key order. */
  function KeyColumns(key: seq<Scalar>): (r: seq<nat>)
    ensures |r| + |KeyScalars(key)| == |key|
  {
    if key == [] then []
    else (if key[0].Column? then [key[0].index] else []) + KeyColumns(key[1..])
  }

  /**
   * The projection `reduce.rs` builds: all column keys first, then one mapped
   * column per non-column key. It has one entry per inner key.
   */
  function KeyOutputsAsWritten(key: seq<Scalar>, arity: nat): (r: seq<nat>)
    ensures |r| == |key|
  {
    KeyColumns(key) + Range(arity, |KeyScalars(key)|)
  }

  /**
   * The projection that puts each inner key back in its place, as the
   * rewrite evidently intends: a column key `Column(i)` is column `i` of the
   * input, the `n`-th non-column key is the `n`-th mapped column `arity + n`.
   */
  function KeyOutputs(key: seq<Scalar>, arity: nat, n: nat): (r: seq<nat>)
    ensures |r| == |key|
  {
    if key == [] then []
    else if key[0].Column? then [key[0].index] + KeyOutputs(key[1..], arity, n)
    else [arity + n] + KeyOutputs(key[1..], arity, n + 1)
  }

  /** The single aggregates `SumInt64(Column(|innerKey|))` over `Count(e)`, `e` not an inner key. */
  predicate SumOfCount(outer: AggregateExpr, inner: AggregateExpr, innerKey: seq<Scalar>)
  {
    && inner.func == Count && inner.expr !in innerKey
    && outer.func == SumInt64 && outer.expr == Column(|innerKey|)
  }

  /** `0, 1, …, n - 1` shifted by `lo`. */
  function Range(lo: nat, n: nat): (r: seq<nat>)
    ensures |r| == n && forall i :: 0 <= i < n ==> r[i] == lo + i
  {
    seq(n, i requires 0 <= i < n => lo + i)
  }

  /** The projection that replaces an inner `Reduce` without aggregates: as written, or positional. */
  function InnerKeyOutputs(key: seq<Scalar>, arity: nat, positional: bool): seq<nat>
  {
    if positional then KeyOutputs(key, arity, 0) else KeyOutputsAsWritten(key, arity)
  }

  /** The rule, with the projection of the aggregate-free case chosen by `positional`. */
  function Rewrite(r: Relation, positional: bool): Relation
  {
    if r.Reduce? && r.input.Reduce? && KeySubset(r.groupKey, r.input.groupKey) then
      var inner := r.input;
      var key := r.groupKey;
      if |r.aggregates| == 0 && |inner.aggregates| == 0 then
        var x := inner.input;
        Reduce(Project(Map(x, KeyScalars(inner.groupKey)), InnerKeyOutputs(inner.groupKey, Arity(x), positional)),
               key, r.aggregates, r.monotonic, r.expectedGroupSize)
      else if |r.aggregates| == 1 && |inner.aggregates| == 1
              && SumOfCount(r.aggregates[0], inner.aggregates[0], inner.groupKey) then
        Project(Map(Reduce(inner.input, key, [inner.aggregates[0]], r.monotonic, r.expectedGroupSize),
                    [CallUnary(CastInt64ToDecimal, Column(|key|))]),
                Range(0, |key|) + [|key| + 1])
      else r
    else r
  }

  /** The relation after `Reduce::action`, as `reduce.rs` writes it. */
  function Fuse(r: Relation): Relation
  {
    Rewrite(r, false)
  }

  /** The relation after `Reduce::action` with the projection that keeps the inner key in place. */
  function FuseIntended(r: Relation): Relation
  {
    Rewrite(r, true)
  }

  // ---------------------------------------------------------------------
  // The rule as the optimizer runs it

  /** `Reduce::action`: the guards in source order, building the new vectors with loops. */
  method Action(relation: Relation) returns (r: Relation)
    ensures r == Fuse(relation)
  {
    r := relation;
    if !relation.Reduce? || !relation.input.Reduce? {
      return;
    }
    var groupKey, aggregates := relation.groupKey, relation.aggregates;
    var innerInput := relation.input.input;
    var innerKey, innerAggregates := relation.input.groupKey, relation.input.aggregates;
    for i := 0 to |groupKey|
      invariant forall j :: 0 <= j < i ==> groupKey[j].Column? && groupKey[j] in innerKey
    {
      if !groupKey[i].Column? || groupKey[i] !in innerKey {
        return;
      }
    }
    if |aggregates| == 0 && |innerAggregates| == 0 {
      var outputs, scalars := MapAndProject(innerKey, Arity(innerInput));
      r := Reduce(Project(Map(innerInput, scalars), outputs), groupKey, aggregates,
                  relation.monotonic, relation.expectedGroupSize);
    } else if |aggregates| == 1 && |innerAggregates| == 1 {
      var count := innerAggregates[0];
      if count.func != Count || count.expr in innerKey {
        return;
      }
      var sum := aggregates[0];
      if sum.func != SumInt64 || !sum.expr.Column? || sum.expr.index != |innerKey| {
        return;
      }
      var outputs: seq<nat> := [];
      for i := 0 to |groupKey|
        invariant outputs == Range(0, i)
      {
        outputs := outputs + [i];
      }
      outputs := outputs + [|groupKey| + 1];
      var fused := Reduce(innerInput, groupKey, [count], relation.monotonic, relation.expectedGroupSize);
      r := Project(Map(fused, [CallUnary(CastInt64ToDecimal, Column(|groupKey|))]), outputs);
    }
  }

  /**
   * The mapped scalars and the projection that replace an inner `Reduce`
   * without aggregates, built as `reduce.rs` builds them: one pass over the
   * inner key splits column keys from the others, a second pass adds one
   * mapped column per non-column key.
   */
  method MapAndProject(innerKey: seq<Scalar>, arity: nat) returns (outputs: seq<nat>, scalars: seq<Scalar>)
    ensures outputs == KeyOutputsAsWritten(innerKey, arity) && scalars == KeyScalars(innerKey)
  {
    outputs, scalars := [], [];
    for i := 0 to |innerKey|
      invariant outputs == KeyColumns(innerKey[..i])
      invariant scalars == KeyScalars(innerKey[..i])
    {
      KeyPrefixStep(innerKey, i);
      if innerKey[i].Column? {
        outputs := outputs + [innerKey[i].index];
      } else {
        scalars := scalars + [innerKey[i]];
      }
    }
    assert innerKey[..|innerKey|] == innerKey;
    for i := 0 to |scalars|
      invariant outputs == KeyColumns(innerKey) + Range(arity, i)
    {
      assert Range(arity, i + 1) == Range(arity, i) + [arity + i];
      outputs := outputs + [arity + i];
    }
  }

  /** The key prefix grows by one key: a column key adds its index, any other key a mapped scalar. */
  lemma KeyPrefixStep(key: seq<Scalar>, i: nat)
    requires i < |key|
    ensures KeyColumns(key[..i + 1]) == KeyColumns(key[..i]) + (if key[i].Column? then [key[i].index] else [])
    ensures KeyScalars(key[..i + 1]) == KeyScalars(key[..i]) + (if key[i].Column? then [] else [key[i]])
  {
    assert key[..i + 1] == key[..i] + [key[i]];
    KeySnoc(key[..i], key[i]);
  }

  lemma KeySnoc(key: seq<Scalar>, k: Scalar)
    ensures KeyColumns(key + [k]) == KeyColumns(key) + (if k.Column? then [k.index] else [])
    ensures KeyScalars(key + [k]) == KeyScalars(key) + (if k.Column? then [] else [k])
  {
    ColumnsSnoc(key, k);
    ScalarsSnoc(key, k);
  }

  lemma {:induction false} ColumnsSnoc(key: seq<Scalar>, k: Scalar)
    ensures KeyColumns(key + [k]) == KeyColumns(key) + (if k.Column? then [k.index] else [])
  {
    if key == [] {
      assert [k][1..] == [];
    } else {
      assert (key + [k])[1..] == key[1..] + [k];
      ColumnsSnoc(key[1..], k);
      var h := if key[0].Column? then [key[0].index] else [];
      calc {
        KeyColumns(key + [k]);
        h + KeyColumns(key[1..] + [k]);
        h + (KeyColumns(key[1..]) + (if k.Column? then [k.index] else []));
        (h + KeyColumns(key[1..])) + (if k.Column? then [k.index] else []);
      }
    }
  }

  lemma {:induction false} ScalarsSnoc(key: seq<Scalar>, k: Scalar)
    ensures KeyScalars(key + [k]) == KeyScalars(key) + (if k.Column? then [] else [k])
  {
    if key == [] {
      assert [k][1..] == [];
    } else {
      assert (key + [k])[1..] == key[1..] + [k];
      ScalarsSnoc(key[1..], k);
      var h := if key[0].Column? then [] else [key[0]];
      calc {
        KeyScalars(key + [k]);
        h + KeyScalars(key[1..] + [k]);
        h + (KeyScalars(key[1..]) + (if k.Column? then [] else [k]));
        (h + KeyScalars(key[1..])) + (if k.Column? then [] else [k]);
      }
    }
  }


  // ---------------------------------------------------------------------
  // What the rule guarantees

  /** The rewritten expression produces as many columns as before. */
  lemma FusePreservesArity(r: Relation)
    ensures Arity(Fuse(r)) == Arity(r)
  {
  }

  /** Every mapped scalar comes from the key, so it stays within the key's bound. */
  lemma KeyScalarsFromKey(key: seq<Scalar>)
    ensures forall s :: s in KeyScalars(key) ==> s in key && !s.Column?
  {
    if key != [] {
      KeyScalarsFromKey(key[1..]);
    }
  }

  /** The column keys of a key over `arity` columns are columns of the input. */
  lemma {:induction false} KeyColumnsBelow(key: seq<Scalar>, arity: nat)
    requires forall k :: k in key ==> ScalarBelow(k, arity)
    ensures forall i :: 0 <= i < |KeyColumns(key)| ==> KeyColumns(key)[i] < arity
  {
    if key != [] {
      assert key[0] in key;
      assert forall k :: k in key[1..] ==> k in key;
      KeyColumnsBelow(key[1..], arity);
    }
  }

  /** Each projected column is a column key of the input or one of the mapped columns. */
  lemma KeyOutputsAsWrittenInRange(key: seq<Scalar>, arity: nat)
    requires forall k :: k in key ==> ScalarBelow(k, arity)
    ensures var outs := KeyOutputsAsWritten(key, arity);
      forall i :: 0 <= i < |outs| ==> outs[i] < arity + |KeyScalars(key)|
  {
    KeyColumnsBelow(key, arity);
  }

  /** A scalar whose columns are below `a` has them below any larger bound. */
  lemma ScalarBelowMonotone(s: Scalar, a: nat, b: nat)
    requires ScalarBelow(s, a) && a <= b
    ensures ScalarBelow(s, b)
  {
  }

  /** The rule changes the expression exactly when every guard passes. */
  lemma FuseChangesIff(r: Relation)
    ensures Fuse(r) != r <==>
      && r.Reduce? && r.input.Reduce? && KeySubset(r.groupKey, r.input.groupKey)
      && ((|r.aggregates| == 0 && |r.input.aggregates| == 0)
          || (|r.aggregates| == 1 && |r.input.aggregates| == 1
              && SumOfCount(r.aggregates[0], r.input.aggregates[0], r.input.groupKey)))
  {
    if r.Reduce? && r.input.Reduce? && KeySubset(r.groupKey, r.input.groupKey) {
      if |r.aggregates| == 0 && |r.input.aggregates| == 0 {
        assert Fuse(r).input.Project?;
      } else if |r.aggregates| == 1 && |r.input.aggregates| == 1
                && SumOfCount(r.aggregates[0], r.input.aggregates[0], r.input.groupKey) {
        assert Fuse(r).Project?;
      }
    }
  }

  /** The rewrite keeps every column reference in range. */
  lemma FusePreservesWellFormed(r: Relation)
    requires WellFormed(r)
    ensures WellFormed(Fuse(r))
  {
    if r.Reduce? && r.input.Reduce? && KeySubset(r.groupKey, r.input.groupKey) {
      var inner := r.input;
      var x := inner.input;
      if |r.aggregates| == 0 && |inner.aggregates| == 0 {
        var scalars := KeyScalars(inner.groupKey);
        KeyScalarsFromKey(inner.groupKey);
        KeyOutputsAsWrittenInRange(inner.groupKey, Arity(x));
        forall j | 0 <= j < |scalars|
          ensures ScalarBelow(scalars[j], Arity(x) + j)
        {
          assert scalars[j] in scalars;
          ScalarBelowMonotone(scalars[j], Arity(x), Arity(x) + j);
        }
        assert WellFormed(Map(x, scalars));
        var outs := KeyOutputsAsWritten(inner.groupKey, Arity(x));
        assert forall o :: o in outs ==> o < Arity(Map(x, scalars));
        var p := Project(Map(x, scalars), outs);
        assert WellFormed(p);
        assert Arity(p) == Arity(inner);
      } else if |r.aggregates| == 1 && |inner.aggregates| == 1
                && SumOfCount(r.aggregates[0], inner.aggregates[0], inner.groupKey) {
        var key := r.groupKey;
        assert forall k :: k in key ==> k in inner.groupKey;
        var fused := Reduce(x, key, [inner.aggregates[0]], r.monotonic, r.expectedGroupSize);
        assert inner.aggregates[0] in inner.aggregates;
        assert WellFormed(fused);
        var m := Map(fused, [CallUnary(CastInt64ToDecimal, Column(|key|))]);
        assert WellFormed(m);
        var outputs := Range(0, |key|) + [|key| + 1];
        forall o | o in outputs
          ensures o < Arity(m)
        {
          var i :| 0 <= i < |outputs| && outputs[i] == o;
        }
      }
    }
  }

  // ---------------------------------------------------------------------
  // Column meaning: which expression over the input each output column computes

  /** `s` with every `Column(i)` replaced by `env[i]`. */
  function Substitute(s: Scalar, env: seq<Scalar>): Scalar
  {
    match s
    case Column(i) => if i < |env| then env[i] else s
    case Literal(_) => s
    case CallUnary(f, e) => CallUnary(f, Substitute(e, env))
  }

  /** The input's own columns, `Column(0), …, Column(arity - 1)`. */
  function Identity(arity: nat): (r: seq<Scalar>)
    ensures |r| == arity && forall i :: 0 <= i < arity ==> r[i] == Column(i)
  {
    seq(arity, i requires 0 <= i < arity => Column(i))
  }

  /** The columns of `Map(input, scalars)` when `env` are those of `input`: each scalar sees the columns before it. */
  function MapColumns(env: seq<Scalar>, scalars: seq<Scalar>): seq<Scalar>
    decreases |scalars|
  {
    if scalars == [] then env else MapColumns(env + [Substitute(scalars[0], env)], scalars[1..])
  }

  /** The columns of `Project(input, outputs)` when `env` are those of `input`. */
  function ProjectColumns(env: seq<Scalar>, outputs: seq<nat>): (r: seq<Scalar>)
    requires forall i :: 0 <= i < |outputs| ==> outputs[i] < |env|
    ensures |r| == |outputs| && forall i :: 0 <= i < |outputs| ==> r[i] == env[outputs[i]]
  {
    seq(|outputs|, i requires 0 <= i < |outputs| => env[outputs[i]])
  }

  /** A scalar that only uses the input's own columns means the same after more columns are added. */
  lemma SubstituteIdentity(s: Scalar, env: seq<Scalar>, arity: nat)
    requires ScalarBelow(s, arity) && arity <= |env| && env[..arity] == Identity(arity)
    ensures Substitute(s, env) == s
  {
    match s
    case Column(i) =>
      assert env[..arity][i] == env[i];
    case Literal(_) =>
    case CallUnary(_, e) =>
      SubstituteIdentity(e, env, arity);
  }

  /** Scalars over the input's own columns are appended unchanged. */
  lemma {:induction false} MapColumnsOfInputScalars(env: seq<Scalar>, scalars: seq<Scalar>, arity: nat)
    requires arity <= |env| && env[..arity] == Identity(arity)
    requires forall s :: s in scalars ==> ScalarBelow(s, arity)
    ensures MapColumns(env, scalars) == env + scalars
    decreases |scalars|
  {
    if scalars != [] {
      SubstituteIdentity(scalars[0], env, arity);
      var next := env + [scalars[0]];
      assert next[..arity] == env[..arity];
      assert forall s :: s in scalars[1..] ==> s in scalars;
      MapColumnsOfInputScalars(next, scalars[1..], arity);
      assert next + scalars[1..] == env + scalars;
    }
  }

  /**
   * The projection built from `KeyOutputs` picks, at position `i`, the inner
   * key `key[i]`: a column key from the input, a non-column key from the
   * mapped columns that follow it.
   */
  lemma {:induction false} KeyOutputKeepsPlace(key: seq<Scalar>, pre: seq<Scalar>, post: seq<Scalar>, arity: nat, i: nat)
    requires arity <= |pre| && forall j :: 0 <= j < arity ==> pre[j] == Column(j)
    requires forall k :: k in key ==> ScalarBelow(k, arity)
    requires i < |key|
    ensures var env, outs := pre + KeyScalars(key) + post, KeyOutputs(key, arity, |pre| - arity);
      outs[i] < |env| && env[outs[i]] == key[i]
  {
    var env, outs := pre + KeyScalars(key) + post, KeyOutputs(key, arity, |pre| - arity);
    if i == 0 {
      assert key[0] in key;
    } else {
      var tail := key[1..];
      var pre' := if key[0].Column? then pre else pre + [key[0]];
      assert env == pre' + KeyScalars(tail) + post by {
        if !key[0].Column? {
          assert KeyScalars(key) == [key[0]] + KeyScalars(tail);
        }
      }
      assert forall k :: k in tail ==> k in key;
      KeyOutputKeepsPlace(tail, pre', post, arity, i - 1);
      assert outs[i] == KeyOutputs(tail, arity, |pre'| - arity)[i - 1];
    }
  }

  /**
   * The relation that replaces an inner `Reduce` without aggregates yields,
   * column for column, the inner group key over the inner input.
   */
  lemma FusedInputMatchesInnerKey(key: seq<Scalar>, arity: nat)
    requires forall k :: k in key ==> ScalarBelow(k, arity)
    ensures var env := MapColumns(Identity(arity), KeyScalars(key));
      (forall i :: 0 <= i < |KeyOutputs(key, arity, 0)| ==> KeyOutputs(key, arity, 0)[i] < |env|)
      && ProjectColumns(env, KeyOutputs(key, arity, 0)) == key
  {
    var scalars := KeyScalars(key);
    KeyScalarsFromKey(key);
    MapColumnsOfInputScalars(Identity(arity), scalars, arity);
    assert Identity(arity) + scalars + [] == Identity(arity) + scalars;
    forall i | 0 <= i < |key|
      ensures KeyOutputs(key, arity, 0)[i] < |Identity(arity) + scalars|
      ensures (Identity(arity) + scalars)[KeyOutputs(key, arity, 0)[i]] == key[i]
    {
      KeyOutputKeepsPlace(key, Identity(arity), [], arity, i);
    }
  }

  /**
   * After fusing a `SumInt64` of a `Count`, the result yields the outer group
   * key followed by the count cast to decimal, where the outer `Reduce`
   * yielded the key followed by the sum.
   */
  lemma FusedCountColumns(keyLen: nat)
    ensures var env := MapColumns(Identity(keyLen + 1), [CallUnary(CastInt64ToDecimal, Column(keyLen))]);
      var outputs := Range(0, keyLen) + [keyLen + 1];
      (forall i :: 0 <= i < |outputs| ==> outputs[i] < |env|)
      && ProjectColumns(env, outputs) == Identity(keyLen) + [CallUnary(CastInt64ToDecimal, Column(keyLen))]
  {
    var cast := CallUnary(CastInt64ToDecimal, Column(keyLen));
    MapColumnsOfInputScalars(Identity(keyLen + 1), [cast], keyLen + 1);
    var env := Identity(keyLen + 1) + [cast];
    assert env[..keyLen + 1] == Identity(keyLen + 1);
  }

  // ---------------------------------------------------------------------
  // The projection as the source builds it

  /**
   * A non-column key before a column key is moved behind it: over a
   * one-column input, the inner key `[Literal(5), Column(0)]` comes out as
   * `[Column(0), Literal(5)]`.
   */
  lemma AsWrittenReordersKey()
    ensures var key := [Literal(5), Column(0)];
      var env := MapColumns(Identity(1), KeyScalars(key));
      (forall i :: 0 <= i < |KeyOutputsAsWritten(key, 1)| ==> KeyOutputsAsWritten(key, 1)[i] < |env|)
      && ProjectColumns(env, KeyOutputsAsWritten(key, 1)) == [Column(0), Literal(5)]
      && ProjectColumns(env, KeyOutputsAsWritten(key, 1)) != key
  {
    var key := [Literal(5), Column(0)];
    assert KeyScalars(key) == [Literal(5)] by {
      assert key[1..] == [Column(0)] && key[1..][1..] == [];
    }
    assert KeyColumns(key) == [0] by {
      assert key[1..] == [Column(0)] && key[1..][1..] == [];
    }
    MapColumnsOfInputScalars(Identity(1), [Literal(5)], 1);
    assert Identity(1) + [Literal(5)] == [Column(0), Literal(5)];
  }

  /** No non-column key comes before a column key. */
  predicate ColumnsFirst(key: seq<Scalar>)
  {
    forall i, j :: 0 <= i < j < |key| && !key[i].Column? ==> !key[j].Column?
  }

  /** A key without column keys has no column indices. */
  lemma {:induction false} NoColumnKeys(key: seq<Scalar>)
    requires forall j :: 0 <= j < |key| ==> !key[j].Column?
    ensures KeyColumns(key) == []
  {
    if key != [] {
      assert !key[0].Column?;
      assert forall j :: 0 <= j < |key[1..]| ==> key[1..][j] == key[j + 1];
      NoColumnKeys(key[1..]);
    }
  }

  /** A key with some column key has some column index. */
  lemma {:induction false} SomeColumnKey(key: seq<Scalar>, j: nat)
    requires j < |key| && key[j].Column?
    ensures |KeyColumns(key)| > 0
  {
    if !key[0].Column? {
      assert key[1..][j - 1] == key[j];
      SomeColumnKey(key[1..], j - 1);
    }
  }

  /** With the column keys first, the positional projection is the one `reduce.rs` builds. */
  lemma {:induction false} ColumnsFirstOutputs(key: seq<Scalar>, arity: nat, n: nat)
    requires ColumnsFirst(key)
    ensures KeyOutputs(key, arity, n) == KeyColumns(key) + Range(arity + n, |KeyScalars(key)|)
  {
    if key != [] {
      var tail := key[1..];
      assert ColumnsFirst(tail) by {
        forall i, j | 0 <= i < j < |tail| && !tail[i].Column?
          ensures !tail[j].Column?
        {
          assert tail[i] == key[i + 1] && tail[j] == key[j + 1];
        }
      }
      if key[0].Column? {
        ColumnsFirstOutputs(tail, arity, n);
      } else {
        assert forall j :: 0 <= j < |tail| ==> !tail[j].Column? by {
          forall j | 0 <= j < |tail|
            ensures !tail[j].Column?
          {
            assert tail[j] == key[j + 1];
          }
        }
        NoColumnKeys(tail);
        ColumnsFirstOutputs(tail, arity, n + 1);
        var m := |KeyScalars(tail)|;
        assert [arity + n] + Range(arity + n + 1, m) == Range(arity + n, m + 1);
      }
    }
  }

  /** A key whose column keys are not all first has a non-column key among its first `|KeyColumns(key)|`. */
  lemma {:induction false} MisplacedKey(key: seq<Scalar>)
    requires !ColumnsFirst(key)
    ensures exists i :: 0 <= i < |KeyColumns(key)| && i < |key| && !key[i].Column?
  {
    var i, j :| 0 <= i < j < |key| && !key[i].Column? && key[j].Column?;
    if !key[0].Column? {
      SomeColumnKey(key, j);
      assert 0 < |KeyColumns(key)| && !key[0].Column?;
    } else {
      var tail := key[1..];
      assert tail[i - 1] == key[i] && tail[j - 1] == key[j];
      MisplacedKey(tail);
      var k :| 0 <= k < |KeyColumns(tail)| && k < |tail| && !tail[k].Column?;
      assert KeyColumns(key) == [key[0].index] + KeyColumns(tail);
      assert key[k + 1] == tail[k];
    }
  }

  /**
   * The relation `reduce.rs` puts in place of an inner `Reduce` without
   * aggregates yields the inner group key exactly when no non-column key
   * comes before a column key.
   */
  lemma AsWrittenKeepsKeyIff(key: seq<Scalar>, arity: nat)
    requires forall k :: k in key ==> ScalarBelow(k, arity)
    ensures var env, outs := MapColumns(Identity(arity), KeyScalars(key)), KeyOutputsAsWritten(key, arity);
      (forall i :: 0 <= i < |outs| ==> outs[i] < |env|)
      && (ProjectColumns(env, outs) == key <==> ColumnsFirst(key))
  {
    var scalars := KeyScalars(key);
    KeyScalarsFromKey(key);
    MapColumnsOfInputScalars(Identity(arity), scalars, arity);
    assert Identity(arity) + scalars + [] == Identity(arity) + scalars;
    var env := Identity(arity) + scalars;
    KeyOutputsAsWrittenInRange(key, arity);
    var outs := KeyOutputsAsWritten(key, arity);
    if ColumnsFirst(key) {
      ColumnsFirstOutputs(key, arity, 0);
      FusedInputMatchesInnerKey(key, arity);
    } else {
      MisplacedKey(key);
      var i :| 0 <= i < |KeyColumns(key)| && i < |key| && !key[i].Column?;
      KeyColumnsBelow(key, arity);
      assert outs[i] == KeyColumns(key)[i];
      assert env[outs[i]] == Column(outs[i]);
      assert ProjectColumns(env, outs)[i] != key[i];
    }
  }

  /** The projection `reduce.rs` builds is the positional one exactly when the column keys come first. */
  lemma AsWrittenIsIntendedIff(key: seq<Scalar>, arity: nat)
    requires forall k :: k in key ==> ScalarBelow(k, arity)
    ensures KeyOutputsAsWritten(key, arity) == KeyOutputs(key, arity, 0) <==> ColumnsFirst(key)
  {
    if ColumnsFirst(key) {
      ColumnsFirstOutputs(key, arity, 0);
    } else {
      AsWrittenKeepsKeyIff(key, arity);
      FusedInputMatchesInnerKey(key, arity);
    }
  }

  /**
   * `Reduce::action` as written and as intended produce the same expression
   * unless the aggregate-free case fires on an inner key with a non-column
   * key before a column key.
   */
  lemma FuseAgreesIff(r: Relation)
    requires WellFormed(r)
    ensures Fuse(r) == FuseIntended(r) <==>
      !(r.Reduce? && r.input.Reduce? && KeySubset(r.groupKey, r.input.groupKey)
        && |r.aggregates| == 0 && |r.input.aggregates| == 0)
      || ColumnsFirst(r.input.groupKey)
  {
    if r.Reduce? && r.input.Reduce? && KeySubset(r.groupKey, r.input.groupKey)
      && |r.aggregates| == 0 && |r.input.aggregates| == 0
    {
      var inner := r.input;
      AsWrittenIsIntendedIff(inner.groupKey, Arity(inner.input));
      if Fuse(r) == FuseIntended(r) {
        assert Fuse(r).input.outputs == FuseIntended(r).input.outputs;
      }
    }
  }

  // ---------------------------------------------------------------------
  // `transform`: the rule applied to every node, parents before children

  function ReduceCount(r: Relation): nat
  {
    match r
    case Get(_) => 0
    case Reduce(input, _, _, _, _) => 1 + ReduceCount(input)
    case Map(input, _) => ReduceCount(input)
    case Project(input, _) => ReduceCount(input)
    case Other(_, inputs) => ReduceCountAll(inputs)
  }

  function ReduceCountAll(rs: seq<Relation>): nat
  {
    if rs == [] then 0 else ReduceCount(rs[0]) + ReduceCountAll(rs[1..])
  }

  function Size(r: Relation): nat
  {
    match r
    case Get(_) => 1
    case Reduce(input, _, _, _, _) => 1 + Size(input)
    case Map(input, _) => 1 + Size(input)
    case Project(input, _) => 1 + Size(input)
    case Other(_, inputs) => 1 + SizeAll(inputs)
  }

  function SizeAll(rs: seq<Relation>): nat
  {
    if rs == [] then 0 else 1 + Size(rs[0]) + SizeAll(rs[1..])
  }

  /** Each rewrite removes one `Reduce`, so the traversal ends. */
  lemma FuseRemovesReduce(r: Relation)
    ensures Fuse(r) == r || ReduceCount(Fuse(r)) + 1 == ReduceCount(r)
  {
    if Fuse(r) != r {
      var x := r.input.input;
      if |r.aggregates| == 0 {
        assert Fuse(r) == Reduce(Fuse(r).input, r.groupKey, r.aggregates, r.monotonic, r.expectedGroupSize);
        assert ReduceCount(Fuse(r).input) == ReduceCount(x);
      } else {
        assert ReduceCount(Fuse(r).input) == 1 + ReduceCount(x);
      }
    }
  }

  /** `transform`: `visit_mut_pre` of `action`. */
  function Transform(r: Relation): Relation
    decreases ReduceCount(r), Size(r), 1
  {
    FuseRemovesReduce(r);
    match Fuse(r)
    case Get(a) => Get(a)
    case Reduce(input, key, aggs, mono, size) => Reduce(Transform(input), key, aggs, mono, size)
    case Map(input, scalars) => Map(Transform(input), scalars)
    case Project(input, outputs) => Project(Transform(input), outputs)
    case Other(a, inputs) => Other(a, TransformAll(inputs))
  }

  /** `transform` of each input, in order. */
  function TransformAll(rs: seq<Relation>): (r: seq<Relation>)
    decreases ReduceCountAll(rs), SizeAll(rs), 0
    ensures |r| == |rs|
  {
    if rs == [] then [] else [Transform(rs[0])] + TransformAll(rs[1..])
  }

  /** `TransformAll` transforms each input in its own place. */
  lemma {:induction false} TransformAllPointwise(rs: seq<Relation>)
    ensures forall i :: 0 <= i < |rs| ==> TransformAll(rs)[i] == Transform(rs[i])
  {
    if rs != [] {
      TransformAllPointwise(rs[1..]);
      assert forall i :: 0 < i < |rs| ==> TransformAll(rs)[i] == TransformAll(rs[1..])[i - 1];
    }
  }

  /** The whole optimization pass keeps the arity. */
  lemma {:induction false} TransformPreservesArity(r: Relation)
    ensures Arity(Transform(r)) == Arity(r)
    decreases ReduceCount(r), Size(r), 1
  {
    FuseRemovesReduce(r);
    FusePreservesArity(r);
    match Fuse(r)
    case Get(_) =>
    case Reduce(input, _, _, _, _) =>
    case Map(input, _) => TransformPreservesArity(input);
    case Project(_, _) =>
    case Other(_, _) =>
  }

  /** The whole optimization pass keeps every column reference in range. */
  lemma {:induction false} TransformPreservesWellFormed(r: Relation)
    requires WellFormed(r)
    ensures WellFormed(Transform(r))
    decreases ReduceCount(r), Size(r), 1
  {
    FuseRemovesReduce(r);
    FusePreservesWellFormed(r);
    match Fuse(r)
    case Get(_) =>
    case Reduce(input, _, _, _, _) =>
      TransformPreservesWellFormed(input);
      TransformPreservesArity(input);
    case Map(input, _) =>
      TransformPreservesWellFormed(input);
      TransformPreservesArity(input);
    case Project(input, _) =>
      TransformPreservesWellFormed(input);
      TransformPreservesArity(input);
    case Other(_, inputs) =>
      TransformAllPreservesWellFormed(inputs);
  }

  lemma {:induction false} TransformAllPreservesWellFormed(rs: seq<Relation>)
    requires forall i :: 0 <= i < |rs| ==> WellFormed(rs[i])
    ensures forall i :: 0 <= i < |rs| ==> WellFormed(TransformAll(rs)[i])
    decreases ReduceCountAll(rs), SizeAll(rs), 0
  {
    TransformAllPointwise(rs);
    forall i | 0 <= i < |rs|
      ensures WellFormed(TransformAll(rs)[i])
    {
      assert ReduceCount(rs[i]) <= ReduceCountAll(rs) && Size(rs[i]) < SizeAll(rs) by {
        MemberMeasures(rs, i);
      }
      TransformPreservesWellFormed(rs[i]);
    }
  }

  /** An input is no larger than its siblings together. */
  lemma {:induction false} MemberMeasures(rs: seq<Relation>, i: nat)
    requires i < |rs|
    ensures ReduceCount(rs[i]) <= ReduceCountAll(rs) && Size(rs[i]) < SizeAll(rs)
  {
    if i > 0 {
      MemberMeasures(rs[1..], i - 1);
    }
  }
}
