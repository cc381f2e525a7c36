/** The incremental join operation computes the relation that the dataflow meaning gives its node. */
module JoinMeaning {
  import opened Options
  import opened Expressions
  import opened Relational
  import opened JoinConditions
  import opened Dataflow
  import opened JoinPages
  import opened JoinRuntime
  import opened EquiJoinKernel
  import opened JoinOperation

  ghost function LeftKeys(keys: seq<Key>): seq<Expr>
  {
    seq(|keys|, k requires 0 <= k < |keys| => keys[k].0)
  }

  ghost function RightKeys(keys: seq<Key>): seq<Expr>
  {
    seq(|keys|, k requires 0 <= k < |keys| => keys[k].1)
  }

  /** `spec` evaluates the bound keys and residual of an equality-join definition. */
  ghost predicate BoundTo(spec: JoinSpec, i: Interp, keys: seq<Key>, residual: Option<Expr>, s0: Schema, s1: Schema)
  {
    && (forall x :: spec.leftKey(x) == EvalAll(i, LeftKeys(keys), Unqualified(s0), x))
    && (forall x :: spec.rightKey(x) == EvalAll(i, RightKeys(keys), Unqualified(s1), x))
    && (spec.residual.Some? <==> residual.Some?)
    && (residual.Some? ==>
            forall x, y :: spec.residual.value(x, y) == IsTrue(Eval(i, residual.value, CandidateSchema(s0, s1), x + y)))
  }

  lemma KeysAgree(i: Interp, keys: seq<Key>, s0: Schema, s1: Schema, x: Row, y: Row)
    ensures var a, b := EvalAll(i, LeftKeys(keys), Unqualified(s0), x), EvalAll(i, RightKeys(keys), Unqualified(s1), y);
      KeysMatch(i, keys, Unqualified(s0), Unqualified(s1), x, y) <==> AllValues(a) && a == b
  {
    var a, b := EvalAll(i, LeftKeys(keys), Unqualified(s0), x), EvalAll(i, RightKeys(keys), Unqualified(s1), y);
    forall k | 0 <= k < |keys|
      ensures a[k] == Eval(i, keys[k].0, Unqualified(s0), x) && b[k] == Eval(i, keys[k].1, Unqualified(s1), y)
    {
      assert LeftKeys(keys)[k] == keys[k].0 && RightKeys(keys)[k] == keys[k].1;
    }
    if KeysMatch(i, keys, Unqualified(s0), Unqualified(s1), x, y) {
      assert forall k :: 0 <= k < |keys| ==> a[k].Val? && a[k] == b[k];
    }
  }

  /** A settled operation has emitted exactly the fragments of its node's meaning. */
  lemma OperationComputesNode(op: EquiJoinOperation, i: Interp, keys: seq<Key>, residual: Option<Expr>, s0: Schema,
                              s1: Schema, f: Fragment)
    requires op.Valid() && op.pending.None? && BoundTo(op.spec, i, keys, residual, s0, s1)
    ensures Net(op.history, f)
        == JoinFragments(op.spec.kind, PhysicalOn(i, keys, residual, s0, s1), op.left, op.right)[f]
  {
    var on, physical := op.spec.On(), PhysicalOn(i, keys, residual, s0, s1);
    forall x, y
      ensures on(x, y) == physical(x, y)
    {
      KeysAgree(i, keys, s0, s1, x, y);
    }
    JoinFragmentsCong(op.spec.kind, on, physical, op.left, op.right);
    CommittedIsJoin(op, f);
  }
}
