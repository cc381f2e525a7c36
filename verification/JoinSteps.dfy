/** Lowering a joined table: key extraction, orientation, residual renaming and column order. */
module JoinSteps {
  import opened Bags
  import opened Options
  import opened Expressions
  import opened Relational
  import opened JoinConditions
  import opened Plans
  import opened Dataflow
  import opened LoweringSteps

  function RewriteKey(key: Key, left: LogicalSchema, right: LogicalSchema, physicalLeft: Schema,
    physicalRight: Schema): Option<Key>
  {
    var a := RewriteColumns(key.0, left, physicalLeft);
    var b := RewriteColumns(key.1, right, physicalRight);
    if a.Some? && b.Some? then Some((a.value, b.value)) else None
  }

  function RewriteKeys(keys: seq<Key>, left: LogicalSchema, right: LogicalSchema, physicalLeft: Schema,
                       physicalRight: Schema): (r: Option<seq<Key>>)
    ensures r.Some? ==> |r.value| == |keys|
  {
    if forall k :: 0 <= k < |keys| ==> RewriteKey(keys[k], left, right, physicalLeft, physicalRight).Some?
    then Some(seq(|keys|, k requires 0 <= k < |keys|
      && RewriteKey(keys[k], left, right, physicalLeft, physicalRight).Some? =>
                RewriteKey(keys[k], left, right, physicalLeft, physicalRight).value))
    else None
  }

  predicate KeyColumns(keys: seq<Key>, left: LogicalSchema, right: LogicalSchema)
  {
    forall k :: 0 <= k < |keys| ==> AllColumns(keys[k].0, ResolvesIn(left)) && AllColumns(keys[k].1, ResolvesIn(right))
  }

  lemma RewriteKeysTotal(keys: seq<Key>, left: LogicalSchema, right: LogicalSchema, physicalLeft: Schema,
                         physicalRight: Schema)
    requires KeyColumns(keys, left, right)
    requires |left.fields| == |physicalLeft.fields| && |right.fields| == |physicalRight.fields|
    ensures RewriteKeys(keys, left, right, physicalLeft, physicalRight).Some?
  {
    forall k | 0 <= k < |keys|
      ensures RewriteKey(keys[k], left, right, physicalLeft, physicalRight).Some?
    {
      RewriteColumnsTotal(keys[k].0, left, physicalLeft);
      RewriteColumnsTotal(keys[k].1, right, physicalRight);
    }
  }

  lemma RewriteKeySound(i: Interp, key: Key, left: LogicalSchema, right: LogicalSchema, physicalLeft: Schema,
                        physicalRight: Schema, l: Row, r: Row)
    requires AllColumns(key.0, ResolvesIn(left)) && AllColumns(key.1, ResolvesIn(right)) && UniqueNames(physicalLeft)
    requires UniqueNames(physicalRight)
    requires RewriteKey(key, left, right, physicalLeft, physicalRight).Some?
    ensures var key' := RewriteKey(key, left, right, physicalLeft, physicalRight).value;
      && Eval(i, key'.0, Unqualified(physicalLeft), l) == Eval(i, key.0, left, l)
      && Eval(i, key'.1, Unqualified(physicalRight), r) == Eval(i, key.1, right, r)
  {
    RewriteColumnsSound(i, key.0, left, physicalLeft, l);
    RewriteColumnsSound(i, key.1, right, physicalRight, r);
  }

  /** Renaming both sides of every key leaves the pairs they match unchanged. */
  lemma KeysMatchRewritten(i: Interp, keys: seq<Key>, left: LogicalSchema, right: LogicalSchema, physicalLeft: Schema,
                           physicalRight: Schema, l: Row, r: Row)
    requires KeyColumns(keys, left, right) && UniqueNames(physicalLeft) && UniqueNames(physicalRight)
    requires RewriteKeys(keys, left, right, physicalLeft, physicalRight).Some?
    ensures KeysMatch(i, RewriteKeys(keys, left, right, physicalLeft, physicalRight).value, Unqualified(physicalLeft),
                      Unqualified(physicalRight), l, r)
        <==> KeysMatch(i, keys, left, right, l, r)
  {
    var keys' := RewriteKeys(keys, left, right, physicalLeft, physicalRight).value;
    forall k | 0 <= k < |keys|
      ensures KeyMatches(Eval(i, keys'[k].0, Unqualified(physicalLeft), l),
                         Eval(i, keys'[k].1, Unqualified(physicalRight), r))
          <==> KeyMatches(Eval(i, keys[k].0, left, l), Eval(i, keys[k].1, right, r))
    {
      RewriteKeySound(i, keys[k], left, right, physicalLeft, physicalRight, l, r);
    }
  }

  function SwapKeys(keys: seq<Key>): (r: seq<Key>)
    ensures |r| == |keys|
  {
    seq(|keys|, k requires 0 <= k < |keys| => (keys[k].1, keys[k].0))
  }

  lemma KeysMatchSwapped(i: Interp, keys: seq<Key>, s0: LogicalSchema, s1: LogicalSchema, x: Row, y: Row)
    ensures KeysMatch(i, SwapKeys(keys), s1, s0, y, x) <==> KeysMatch(i, keys, s0, s1, x, y)
  {
    var swapped := SwapKeys(keys);
    forall k | 0 <= k < |keys|
      ensures KeyMatches(Eval(i, swapped[k].0, s1, y), Eval(i, swapped[k].1, s0, x))
          <==> KeyMatches(Eval(i, keys[k].0, s0, x), Eval(i, keys[k].1, s1, y))
    {
    }
  }

  datatype OrientedJoin = OrientedJoin(kind: EquiJoinKind, port0: LoweredRelation, port1: LoweredRelation,
                                       keys: seq<Key>, order: seq<nat>, swapped: bool)

  /** Turns right-preserving joins into left-preserving ones over swapped inputs. */
  function OrientJoin(kind: JoinType, left: LoweredRelation, right: LoweredRelation,
    keys: seq<Key>): Option<OrientedJoin>
  {
    var nl, nr := |left.schema.fields|, |right.schema.fields|;
    match kind
    case Inner => Some(OrientedJoin(InnerJoin, left, right, keys, Positions(nl + nr), false))
    case Left => Some(OrientedJoin(LeftOuterJoin, left, right, keys, Positions(nl + nr), false))
    case Full => Some(OrientedJoin(FullOuterJoin, left, right, keys, Positions(nl + nr), false))
    case LeftSemi => Some(OrientedJoin(LeftSemiJoin, left, right, keys, Positions(nl), false))
    case LeftAnti => Some(OrientedJoin(LeftAntiJoin, left, right, keys, Positions(nl), false))
    case Right => Some(OrientedJoin(LeftOuterJoin, right, left, SwapKeys(keys), SwapOrder(nl, nr), true))
    case RightSemi => Some(OrientedJoin(LeftSemiJoin, right, left, SwapKeys(keys), Positions(nr), true))
    case RightAnti => Some(OrientedJoin(LeftAntiJoin, right, left, SwapKeys(keys), Positions(nr), true))
    case LeftMark => None
    case RightMark => None
  }

  /** The join's condition is the conjunction of its flattened parts. */
  lemma JoinOnConjuncts(i: Interp, on: seq<(Expr, Expr)>, filter: Option<Expr>, left: LogicalSchema,
                        right: LogicalSchema, l: Row, r: Row)
    ensures JoinOn(i, on, filter, left, right)(l, r)
        <==> AllTrue(i, ConditionConjuncts(on, filter), Beside(left, right), l + r)
  {
    var pairs := seq(|on|, k requires 0 <= k < |on| => EqualityOf(on[k]));
    var rest := if filter.Some? then Conjuncts(filter.value) else [];
    AllTrueConcat(i, pairs, rest, Beside(left, right), l + r);
    assert forall k :: 0 <= k < |on| ==> pairs[k] == EqualityOf(on[k]);
    assert AllTrue(i, pairs, Beside(left, right), l + r) <==> forall k :: 0 <= k < |on| ==>
        IsTrue(Eval(i, EqualityOf(on[k]), Beside(left, right), l + r)) by {
      forall k | 0 <= k < |on| ensures pairs[k] == EqualityOf(on[k]) {
      }
    }
    if filter.Some? {
      ConjunctsTrue(i, filter.value, Beside(left, right), l + r);
    }
  }

  lemma ConditionColumns(on: seq<(Expr, Expr)>, filter: Option<Expr>, left: LogicalSchema, right: LogicalSchema)
    requires JoinColumns(on, filter, left, right)
    ensures forall k :: 0 <= k < |ConditionConjuncts(on, filter)| ==>
        AllColumns(ConditionConjuncts(on, filter)[k], BelongsToOne(left, right))
  {
    if filter.Some? {
      ConjunctsColumns(filter.value, BelongsToOne(left, right));
    }
  }

  /** The renamed, reduced residual decides exactly the residual conjuncts. */
  lemma ResidualSound(i: Interp, es: seq<Expr>, left: LogicalSchema, right: LogicalSchema, port0: Schema,
                      port1: Schema, swapped: bool, residual: Option<Expr>, l: Row, r: Row)
    requires forall k :: 0 <= k < |es| ==> AllColumns(es[k], BelongsToOne(left, right))
    requires UniqueNames(port0) && UniqueNames(port1)
    requires |left.fields| == |(if swapped then port1 else port0).fields| == |l|
    requires |right.fields| == |(if swapped then port0 else port1).fields| == |r|
    requires residual.None? <==> Reduce(es).None?
    requires Reduce(es).Some? ==> residual == RewriteJoinResidual(Reduce(es).value, left, right, port0, port1, swapped)
    ensures AllTrue(i, es, Beside(left, right), l + r) <==>
      (residual.Some? ==>
           IsTrue(Eval(i, residual.value, CandidateSchema(port0, port1), if swapped then r + l else l + r)))
  {
    ReduceTrue(i, es, Beside(left, right), l + r);
    ReduceColumns(es, BelongsToOne(left, right));
    if residual.Some? {
      RewriteJoinResidualSound(i, Reduce(es).value, left, right, port0, port1, swapped, l, r);
    }
  }

  /** Both inputs are lowered: unique names and the logical types, position by position. */
  ghost predicate Ready(on: seq<(Expr, Expr)>, filter: Option<Expr>, left: LogicalSchema, right: LogicalSchema,
                        pl: Schema, pr: Schema)
  {
    && JoinColumns(on, filter, left, right) && UniqueNames(pl) && UniqueNames(pr)
    && PhysicalTypes(pl) == Types(left) && PhysicalTypes(pr) == Types(right)
  }

  ghost predicate KeysReady(on: seq<(Expr, Expr)>, filter: Option<Expr>, left: LogicalSchema, right: LogicalSchema,
                            pl: Schema, pr: Schema, keys: seq<Key>)
  {
    RewriteKeys(KeysOf(ConditionConjuncts(on, filter), left, right), left, right, pl, pr) == Some(keys)
  }

  /** `residual` is the renamed conjunction of what is not a key. */
  ghost predicate ResidualReady(on: seq<(Expr, Expr)>, filter: Option<Expr>, left: LogicalSchema, right: LogicalSchema,
                                port0: Schema, port1: Schema, swapped: bool, residual: Option<Expr>)
  {
    var reduced := Reduce(ResidualsOf(ConditionConjuncts(on, filter), left, right));
    && (residual.None? <==> reduced.None?)
    && (reduced.Some? ==> residual == RewriteJoinResidual(reduced.value, left, right, port0, port1, swapped))
  }

  lemma KeysSound(i: Interp, on: seq<(Expr, Expr)>, filter: Option<Expr>, left: LogicalSchema, right: LogicalSchema,
                  pl: Schema, pr: Schema, keys: seq<Key>, l: Row, r: Row)
    requires UniqueNames(pl) && UniqueNames(pr) && KeysReady(on, filter, left, right, pl, pr, keys)
    ensures var ks := KeysOf(ConditionConjuncts(on, filter), left, right);
      && (KeysMatch(i, keys, Unqualified(pl), Unqualified(pr), l, r) <==> KeysMatch(i, ks, left, right, l, r))
      && (KeysMatch(i, SwapKeys(keys), Unqualified(pr), Unqualified(pl), r, l) <==> KeysMatch(i, ks, left, right, l, r))
  {
    KeysOfColumns(ConditionConjuncts(on, filter), left, right);
    KeysMatchRewritten(i, KeysOf(ConditionConjuncts(on, filter), left, right), left, right, pl, pr, l, r);
    KeysMatchSwapped(i, keys, Unqualified(pl), Unqualified(pr), l, r);
  }

  /** SQL's condition splits into the keys and the residual conjuncts. */
  lemma ConditionSplits(i: Interp, on: seq<(Expr, Expr)>, filter: Option<Expr>, left: LogicalSchema,
                        right: LogicalSchema, l: Row, r: Row)
    requires JoinColumns(on, filter, left, right) && HasTypes(l, Types(left)) && HasTypes(r, Types(right))
    ensures var cs := ConditionConjuncts(on, filter);
      JoinOn(i, on, filter, left, right)(l, r) <==>
        KeysMatch(i, KeysOf(cs, left, right), left, right, l, r) && AllTrue(i, ResidualsOf(cs, left, right),
                                                                            Beside(left, right), l + r)
  {
    JoinOnConjuncts(i, on, filter, left, right, l, r);
    ConditionColumns(on, filter, left, right);
    SplitSound(i, ConditionConjuncts(on, filter), left, right, l, r);
  }

  /** The operator keeps exactly the pairs SQL's condition keeps. */
  lemma ConditionDirect(i: Interp, on: seq<(Expr, Expr)>, filter: Option<Expr>, left: LogicalSchema,
                        right: LogicalSchema, pl: Schema, pr: Schema, keys: seq<Key>, residual: Option<Expr>, l: Row,
                        r: Row)
    requires Ready(on, filter, left, right, pl, pr) && KeysReady(on, filter, left, right, pl, pr, keys)
    requires ResidualReady(on, filter, left, right, pl, pr, false, residual)
    requires HasTypes(l, Types(left)) && HasTypes(r, Types(right))
    ensures PhysicalOn(i, keys, residual, pl, pr)(l, r) <==> JoinOn(i, on, filter, left, right)(l, r)
  {
    var es := ResidualsOf(ConditionConjuncts(on, filter), left, right);
    ConditionSplits(i, on, filter, left, right, l, r);
    KeysSound(i, on, filter, left, right, pl, pr, keys, l, r);
    ConditionColumns(on, filter, left, right);
    ResidualsOfColumns(ConditionConjuncts(on, filter), left, right);
    ResidualSound(i, es, left, right, pl, pr, false, residual, l, r);
  }

  /** So does the operator over swapped inputs, with swapped keys and the residual's ports exchanged. */
  lemma ConditionSwapped(i: Interp, on: seq<(Expr, Expr)>, filter: Option<Expr>, left: LogicalSchema,
                         right: LogicalSchema, pl: Schema, pr: Schema, keys: seq<Key>, residual: Option<Expr>, l: Row,
                         r: Row)
    requires Ready(on, filter, left, right, pl, pr) && KeysReady(on, filter, left, right, pl, pr, keys)
    requires ResidualReady(on, filter, left, right, pr, pl, true, residual)
    requires HasTypes(l, Types(left)) && HasTypes(r, Types(right))
    ensures PhysicalOn(i, SwapKeys(keys), residual, pr, pl)(r, l) <==> JoinOn(i, on, filter, left, right)(l, r)
  {
    var es := ResidualsOf(ConditionConjuncts(on, filter), left, right);
    ConditionSplits(i, on, filter, left, right, l, r);
    KeysSound(i, on, filter, left, right, pl, pr, keys, l, r);
    ConditionColumns(on, filter, left, right);
    ResidualsOfColumns(ConditionConjuncts(on, filter), left, right);
    ResidualSound(i, es, left, right, pr, pl, true, residual, l, r);
  }

  predicate Swaps(kind: JoinType)
  {
    kind.Right? || kind.RightSemi? || kind.RightAnti?
  }

  function OutputOrder(kind: JoinType, nl: nat, nr: nat): seq<nat>
  {
    match kind
    case Right => SwapOrder(nl, nr)
    case LeftSemi => Positions(nl)
    case LeftAnti => Positions(nl)
    case RightSemi => Positions(nr)
    case RightAnti => Positions(nr)
    case _ => Positions(nl + nr)
  }

  lemma OrientJoinShape(kind: JoinType, left: LoweredRelation, right: LoweredRelation, keys: seq<Key>)
    requires !kind.LeftMark? && !kind.RightMark?
    ensures OrientJoin(kind, left, right, keys).Some?
    ensures var o := OrientJoin(kind, left, right, keys).value;
      && o.kind == KindOf(kind) && o.swapped == Swaps(kind)
      && o.order == OutputOrder(kind, |left.schema.fields|, |right.schema.fields|)
      && (o.swapped ==> o.port0 == right && o.port1 == left && o.keys == SwapKeys(keys))
      && (!o.swapped ==> o.port0 == left && o.port1 == right && o.keys == keys)
  {
  }

  /** A left-preserving join needs no reordering. */
  lemma DirectJoinSound(i: Interp, kind: JoinType, on: seq<(Expr, Expr)>, filter: Option<Expr>, left: LogicalSchema,
                        right: LogicalSchema, pl: Schema, pr: Schema, keys: seq<Key>, residual: Option<Expr>, lm: Bag,
                        rm: Bag)
    requires !Swaps(kind) && !kind.LeftMark? && !kind.RightMark?
    requires Ready(on, filter, left, right, pl, pr) && KeysReady(on, filter, left, right, pl, pr, keys)
    requires ResidualReady(on, filter, left, right, pl, pr, false, residual)
    requires BagHasTypes(lm, Types(left)) && BagHasTypes(rm, Types(right))
    ensures var out := EquiJoin(KindOf(kind), PhysicalOn(i, keys, residual, pl, pr), lm, rm, |pl.fields|, |pr.fields|);
      var order := OutputOrder(kind, |pl.fields|, |pr.fields|);
      && AllLength(out, |order|)
      && Map(Select(order), out) == SqlJoin(kind, JoinOn(i, on, filter, left, right), lm, rm, |left.fields|,
                                            |right.fields|)
  {
    var on0 := JoinOn(i, on, filter, left, right);
    var on' := PhysicalOn(i, keys, residual, pl, pr);
    SameConditionDirect(i, on, filter, left, right, pl, pr, keys, residual, lm, rm);
    assert |pl.fields| == |Types(left)| && |pr.fields| == |Types(right)|;
    EquiJoinCong(KindOf(kind), on', on0, lm, rm, |pl.fields|, |pr.fields|);
    DirectJoin(kind, on0, lm, rm, Types(left), Types(right), OutputOrder(kind, |pl.fields|, |pr.fields|));
  }

  lemma SameConditionDirect(i: Interp, on: seq<(Expr, Expr)>, filter: Option<Expr>, left: LogicalSchema,
                            right: LogicalSchema, pl: Schema, pr: Schema, keys: seq<Key>, residual: Option<Expr>,
                            lm: Bag, rm: Bag)
    requires Ready(on, filter, left, right, pl, pr) && KeysReady(on, filter, left, right, pl, pr, keys)
    requires ResidualReady(on, filter, left, right, pl, pr, false, residual)
    requires BagHasTypes(lm, Types(left)) && BagHasTypes(rm, Types(right))
    ensures forall l, r :: l in lm && r in rm ==>
        PhysicalOn(i, keys, residual, pl, pr)(l, r) == JoinOn(i, on, filter, left, right)(l, r)
  {
    forall l, r | l in lm && r in rm
      ensures PhysicalOn(i, keys, residual, pl, pr)(l, r) == JoinOn(i, on, filter, left, right)(l, r)
    {
      ConditionDirect(i, on, filter, left, right, pl, pr, keys, residual, l, r);
    }
  }

  lemma SameConditionSwapped(i: Interp, on: seq<(Expr, Expr)>, filter: Option<Expr>, left: LogicalSchema,
                             right: LogicalSchema, pl: Schema, pr: Schema, keys: seq<Key>, residual: Option<Expr>,
                             lm: Bag, rm: Bag)
    requires Ready(on, filter, left, right, pl, pr) && KeysReady(on, filter, left, right, pl, pr, keys)
    requires ResidualReady(on, filter, left, right, pr, pl, true, residual)
    requires BagHasTypes(lm, Types(left)) && BagHasTypes(rm, Types(right))
    ensures forall r, l :: r in rm && l in lm ==>
        PhysicalOn(i, SwapKeys(keys), residual, pr, pl)(r, l) == Turned(JoinOn(i, on, filter, left, right))(r, l)
  {
    forall r, l | r in rm && l in lm
      ensures PhysicalOn(i, SwapKeys(keys), residual, pr, pl)(r, l) == Turned(JoinOn(i, on, filter, left, right))(r, l)
    {
      ConditionSwapped(i, on, filter, left, right, pl, pr, keys, residual, l, r);
    }
  }

  /** A right-preserving join, run left-preserving over swapped inputs and put back in SQL order. */
  lemma SwappedJoinSound(i: Interp, kind: JoinType, on: seq<(Expr, Expr)>, filter: Option<Expr>, left: LogicalSchema,
                         right: LogicalSchema, pl: Schema, pr: Schema, keys: seq<Key>, residual: Option<Expr>, lm: Bag,
                         rm: Bag)
    requires Swaps(kind)
    requires Ready(on, filter, left, right, pl, pr) && KeysReady(on, filter, left, right, pl, pr, keys)
    requires ResidualReady(on, filter, left, right, pr, pl, true, residual)
    requires BagHasTypes(lm, Types(left)) && BagHasTypes(rm, Types(right))
    ensures var out := EquiJoin(KindOf(kind), PhysicalOn(i, SwapKeys(keys), residual, pr, pl), rm, lm, |pr.fields|,
                                |pl.fields|);
      var order := OutputOrder(kind, |pl.fields|, |pr.fields|);
      && AllLength(out, |order|)
      && Map(Select(order), out) == SqlJoin(kind, JoinOn(i, on, filter, left, right), lm, rm, |left.fields|,
                                            |right.fields|)
  {
    var on' := PhysicalOn(i, SwapKeys(keys), residual, pr, pl);
    var on0 := JoinOn(i, on, filter, left, right);
    SameConditionSwapped(i, on, filter, left, right, pl, pr, keys, residual, lm, rm);
    assert |pl.fields| == |Types(left)| && |pr.fields| == |Types(right)|;
    EquiJoinCong(KindOf(kind), on', Turned(on0), rm, lm, |pr.fields|, |pl.fields|);
    SwappedJoin(kind, on0, lm, rm, Types(left), Types(right), OutputOrder(kind, |pl.fields|, |pr.fields|));
  }

  lemma TypedLength(m: Bag, types: seq<DataType>)
    requires BagHasTypes(m, types)
    ensures AllLength(m, |types|)
  {
  }

  lemma DirectJoin(kind: JoinType, on: Condition, lm: Bag, rm: Bag, lt: seq<DataType>, rt: seq<DataType>,
                   order: seq<nat>)
    requires kind.Inner? || kind.Left? || kind.Full? || kind.LeftSemi? || kind.LeftAnti?
    requires BagHasTypes(lm, lt) && BagHasTypes(rm, rt) && order == Positions(|JoinTypes(kind, lt, rt)|)
    ensures var out := EquiJoin(KindOf(kind), on, lm, rm, |lt|, |rt|);
      AllLength(out, |order|) && Map(Select(order), out) == SqlJoin(kind, on, lm, rm, |lt|, |rt|)
  {
    EquiJoinIsSqlJoin(kind, on, lm, rm, |lt|, |rt|);
    SqlJoinTyped(kind, on, lm, rm, lt, rt);
    TypedLength(SqlJoin(kind, on, lm, rm, |lt|, |rt|), JoinTypes(kind, lt, rt));
    IdentitySelect(order, SqlJoin(kind, on, lm, rm, |lt|, |rt|));
  }

  lemma SwappedJoin(kind: JoinType, on: Condition, lm: Bag, rm: Bag, lt: seq<DataType>, rt: seq<DataType>,
                    order: seq<nat>)
    requires kind.Right? || kind.RightSemi? || kind.RightAnti?
    requires BagHasTypes(lm, lt) && BagHasTypes(rm, rt)
    requires order == if kind.Right? then SwapOrder(|lt|, |rt|) else Positions(|rt|)
    ensures var out := EquiJoin(KindOf(kind), Turned(on), rm, lm, |rt|, |lt|);
      AllLength(out, |order|) && Map(Select(order), out) == SqlJoin(kind, on, lm, rm, |lt|, |rt|)
  {
    if kind.Right? {
      EquiJoinIsSqlJoin(Left, Turned(on), rm, lm, |rt|, |lt|);
      SqlJoinTyped(Left, Turned(on), rm, lm, rt, lt);
      TypedLength(SqlJoin(Left, Turned(on), rm, lm, |rt|, |lt|), rt + lt);
      RightJoinBySwapping(on, lm, rm, |lt|, |rt|);
    } else {
      RightExistenceBySwapping(kind, on, lm, rm, |lt|, |rt|);
      SqlJoinTyped(kind, on, lm, rm, lt, rt);
      TypedLength(SqlJoin(kind, on, lm, rm, |lt|, |rt|), rt);
      IdentitySelect(order, SqlJoin(kind, on, lm, rm, |lt|, |rt|));
    }
  }

  // ---- Declaring the operator ---------------------------------------------

  lemma JoinedTypes(s0: Schema, s1: Schema, names: seq<string>, pad0: bool, pad1: bool, metadata: map<string, string>)
    requires |s0.fields| <= |names| <= |s0.fields| + |s1.fields|
    ensures PhysicalTypes(Schema(JoinedFields(s0, s1, names, pad0, pad1), metadata))
        == (PhysicalTypes(s0) + PhysicalTypes(s1))[..|names|]
  {
  }

  /** Selecting `OutputOrder` from the operator's columns gives the types of SQL's joined table. */
  lemma OrderedTypes(kind: JoinType, lt: seq<DataType>, rt: seq<DataType>, out: seq<DataType>)
    requires !kind.LeftMark? && !kind.RightMark?
    requires out
        == if KindOf(kind).LeftOnly() then (if Swaps(kind) then rt else lt)
           else if Swaps(kind) then rt + lt
           else lt + rt
    ensures |OutputOrder(kind, |lt|, |rt|)| == |JoinTypes(kind, lt, rt)|
    ensures forall k :: 0 <= k < |OutputOrder(kind, |lt|, |rt|)| ==>
      OutputOrder(kind, |lt|, |rt|)[k] < |out| && out[OutputOrder(kind, |lt|, |rt|)[k]] == JoinTypes(kind, lt, rt)[k]
  {
  }

  lemma JoinOutputTypes(b: Binder, kind: JoinType, keys: seq<Key>, names: seq<string>, residual: Option<Expr>,
                        s0: Schema, s1: Schema, output: Schema)
    requires !kind.LeftMark? && !kind.RightMark?
    requires UncheckedSchema(b, EquiJoinOp(KindOf(kind), keys, names, residual), [s0, s1]) == Some(output)
    ensures PhysicalTypes(output)
        == if KindOf(kind).LeftOnly() then PhysicalTypes(s0) else PhysicalTypes(s0) + PhysicalTypes(s1)
  {
    JoinedTypes(s0, s1, names, KindOf(kind).Preserves(1), KindOf(kind).Preserves(0), map[]);
  }

  /** What the join operator and the alignment of its columns denote together. */
  lemma JoinMeaning(i: Interp, db: Database, p: Plan, sources: seq<Schema>, pl: Schema, pr: Schema, keys: seq<Key>,
                    residual: Option<Expr>)
    requires p.Join? && WellFormed(p, sources) && !p.kind.LeftMark? && !p.kind.RightMark?
    requires DatabaseConforms(db, sources)
    requires Ready(p.on, p.filter, SchemaOf(p.left), SchemaOf(p.right), pl, pr)
    requires KeysReady(p.on, p.filter, SchemaOf(p.left), SchemaOf(p.right), pl, pr, keys)
    requires ResidualReady(p.on, p.filter, SchemaOf(p.left), SchemaOf(p.right), if Swaps(p.kind) then pr else pl,
                           if Swaps(p.kind) then pl else pr, Swaps(p.kind), residual)
    ensures var lm, rm := Meaning(p.left, i, db), Meaning(p.right, i, db);
      var out := if Swaps(p.kind)
                 then EquiJoin(KindOf(p.kind), PhysicalOn(i, SwapKeys(keys), residual, pr, pl), rm, lm, |pr.fields|,
                               |pl.fields|)
                 else EquiJoin(KindOf(p.kind), PhysicalOn(i, keys, residual, pl, pr), lm, rm, |pl.fields|, |pr.fields|);
      var order := OutputOrder(p.kind, |pl.fields|, |pr.fields|);
      AllLength(out, |order|) && Map(Select(order), out) == Meaning(p, i, db)
  {
    var lm, rm := Meaning(p.left, i, db), Meaning(p.right, i, db);
    MeaningTyped(p.left, sources, i, db);
    MeaningTyped(p.right, sources, i, db);
    if Swaps(p.kind) {
      SwappedJoinSound(i, p.kind, p.on, p.filter, SchemaOf(p.left), SchemaOf(p.right), pl, pr, keys, residual, lm, rm);
    } else {
      DirectJoinSound(i, p.kind, p.on, p.filter, SchemaOf(p.left), SchemaOf(p.right), pl, pr, keys, residual, lm, rm);
    }
  }
}
