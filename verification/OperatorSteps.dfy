/** The remaining operators: joins as declared, ASOF joins, aggregates, unions, scans. */
module OperatorSteps {
  import opened Bags
  import opened Options
  import opened Expressions
  import opened Relational
  import opened JoinConditions
  import opened Plans
  import opened Dataflow
  import opened LoweringSteps
  import opened JoinSteps

  // ---- Joins --------------------------------------------------------------

  function Ports<T>(swap: bool, left: T, right: T): seq<T>
  {
    if swap then [right, left] else [left, right]
  }

  /** The ports, keys and schemas of the declared join. */
  ghost predicate JoinDeclared(b: Binder, nodes: seq<Node>, left: LoweredRelation, right: LoweredRelation,
                               kind: JoinType, keys: seq<Key>, names: seq<string>, residual: Option<Expr>,
                               nodes': seq<Node>, r: LoweredRelation)
  {
    && !kind.LeftMark? && !kind.RightMark?
    && Declares(b, nodes, Ports(Swaps(kind), left, right),
                EquiJoinOp(KindOf(kind), if Swaps(kind) then SwapKeys(keys) else keys, names, residual), nodes', r)
  }

  lemma JoinEvaluates(b: Binder, nodes: seq<Node>, left: LoweredRelation, right: LoweredRelation, kind: JoinType,
                      keys: seq<Key>, names: seq<string>, residual: Option<Expr>, nodes': seq<Node>, r: LoweredRelation,
                      i: Interp, db: Database)
    requires IsRelation(nodes, left) && IsRelation(nodes, right)
    requires JoinDeclared(b, nodes, left, right, kind, keys, names, residual, nodes', r)
    ensures var lm, rm := Evaluate(nodes, left.node, i, db), Evaluate(nodes, right.node, i, db);
      Evaluate(nodes', r.node, i, db) ==
      if Swaps(kind)
      then EquiJoin(KindOf(kind), PhysicalOn(i, SwapKeys(keys), residual, right.schema, left.schema), rm, lm,
                    |right.schema.fields|, |left.schema.fields|)
      else EquiJoin(KindOf(kind), PhysicalOn(i, keys, residual, left.schema, right.schema), lm, rm,
                    |left.schema.fields|, |right.schema.fields|)
  {
    if Swaps(kind) {
      DeclaredBinary(b, nodes, right, left, EquiJoinOp(KindOf(kind), SwapKeys(keys), names, residual), nodes', r, i,
                     db);
    } else {
      DeclaredBinary(b, nodes, left, right, EquiJoinOp(KindOf(kind), keys, names, residual), nodes', r, i, db);
    }
  }

  lemma JoinDeclaredTypes(b: Binder, nodes: seq<Node>, left: LoweredRelation, right: LoweredRelation, kind: JoinType,
                          keys: seq<Key>, names: seq<string>, residual: Option<Expr>, nodes': seq<Node>,
                          r: LoweredRelation)
    requires JoinDeclared(b, nodes, left, right, kind, keys, names, residual, nodes', r)
    ensures PhysicalTypes(r.schema) ==
      if KindOf(kind).LeftOnly() then (if Swaps(kind) then PhysicalTypes(right.schema) else PhysicalTypes(left.schema))
      else if Swaps(kind) then PhysicalTypes(right.schema) + PhysicalTypes(left.schema)
      else PhysicalTypes(left.schema) + PhysicalTypes(right.schema)
  {
    var ks := if Swaps(kind) then SwapKeys(keys) else keys;
    DeclaredSchema(b, nodes, Ports(Swaps(kind), left, right), EquiJoinOp(KindOf(kind), ks, names, residual), nodes', r);
    if Swaps(kind) {
      BinaryInputs(right, left);
      JoinOutputTypes(b, kind, ks, names, residual, right.schema, left.schema, r.schema);
    } else {
      BinaryInputs(left, right);
      JoinOutputTypes(b, kind, ks, names, residual, left.schema, right.schema, r.schema);
    }
  }

  ghost predicate JoinLowered(p: Plan, left: LoweredRelation, right: LoweredRelation, keys: seq<Key>,
                              residual: Option<Expr>)
  {
    && p.Join?
    && KeysReady(p.on, p.filter, SchemaOf(p.left), SchemaOf(p.right), left.schema, right.schema, keys)
    && ResidualReady(p.on, p.filter, SchemaOf(p.left), SchemaOf(p.right), Ports(Swaps(p.kind), left, right)[0].schema,
                     Ports(Swaps(p.kind), left, right)[1].schema, Swaps(p.kind), residual)
  }

  /** The selected columns of the declared join have the types of SQL's joined table. */
  lemma JoinAligned(b: Binder, nodes: seq<Node>, left: LoweredRelation, right: LoweredRelation, p: Plan,
                    keys: seq<Key>, residual: Option<Expr>, names: seq<string>, nodes1: seq<Node>,
                    joined: LoweredRelation, target: Schema, nodes2: seq<Node>, r: LoweredRelation)
    requires p.Join? && Types(p.schema) == JoinTypes(p.kind, Types(SchemaOf(p.left)), Types(SchemaOf(p.right)))
    requires PhysicalTypes(left.schema) == Types(SchemaOf(p.left))
    requires PhysicalTypes(right.schema) == Types(SchemaOf(p.right))
    requires JoinDeclared(b, nodes, left, right, p.kind, keys, names, residual, nodes1, joined)
    requires Projects(nodes1, joined, OutputOrder(p.kind, |left.schema.fields|, |right.schema.fields|), target, nodes2,
                      r)
    ensures PhysicalTypes(r.schema) == Types(p.schema)
    ensures |joined.schema.fields| == |OutputOrder(p.kind, |left.schema.fields|, |right.schema.fields|)|
  {
    JoinDeclaredTypes(b, nodes, left, right, p.kind, keys, names, residual, nodes1, joined);
    OrderedTypes(p.kind, Types(SchemaOf(p.left)), Types(SchemaOf(p.right)), PhysicalTypes(joined.schema));
    assert |PhysicalTypes(left.schema)| == |left.schema.fields|
        && |PhysicalTypes(right.schema)| == |right.schema.fields|;
    assert |PhysicalTypes(joined.schema)| == |joined.schema.fields|;
  }

  lemma JoinStep(b: Binder, nodes: seq<Node>, left: LoweredRelation, right: LoweredRelation, p: Plan,
                 sources: seq<Schema>, keys: seq<Key>, residual: Option<Expr>, names: seq<string>, nodes1: seq<Node>,
                 joined: LoweredRelation, target: Schema, nodes2: seq<Node>, r: LoweredRelation)
    requires p.Join? && WellFormed(p, sources)
    requires Implements(nodes, left, p.left, sources) && Implements(nodes, right, p.right, sources)
    requires JoinLowered(p, left, right, keys, residual)
    requires JoinDeclared(b, nodes, left, right, p.kind, keys, names, residual, nodes1, joined)
    requires Projects(nodes1, joined, OutputOrder(p.kind, |left.schema.fields|, |right.schema.fields|), target, nodes2,
                      r)
    ensures Implements(nodes2, r, p, sources)
  {
    JoinAligned(b, nodes, left, right, p, keys, residual, names, nodes1, joined, target, nodes2, r);
    forall i: Interp, db: Database | DatabaseConforms(db, sources)
      ensures Evaluate(nodes2, r.node, i, db) == Meaning(p, i, db)
    {
      JoinEvaluates(b, nodes, left, right, p.kind, keys, names, residual, nodes1, joined, i, db);
      JoinMeaning(i, db, p, sources, left.schema, right.schema, keys, residual);
    }
  }

  // ---- ASOF joins ---------------------------------------------------------

  datatype Direction = Direction(backward: bool, allowExact: bool)

  function AsOfDirection(op: Operator): Option<Direction>
  {
    match op
    case Lt => Some(Direction(false, false))
    case LtEq => Some(Direction(false, true))
    case Gt => Some(Direction(true, false))
    case GtEq => Some(Direction(true, true))
    case _ => None
  }

  /** The direction and exactness an operator maps to accept exactly the values the operator accepts. */
  lemma DirectionSound(i: Interp, op: Operator, l: Value, r: Value)
    requires AsOfDirection(op).Some?
    ensures IsTrue(Compare(i, op, l, r))
        <==> InOrder(i, AsOfDirection(op).value.backward, AsOfDirection(op).value.allowExact, l, r)
  {
  }

  lemma AsOfKeySame(i: Interp, key: Key, left: LogicalSchema, right: LogicalSchema, pl: Schema, pr: Schema, l: Row,
                    r: Row)
    requires AllColumns(key.0, ResolvesIn(left)) && AllColumns(key.1, ResolvesIn(right)) && UniqueNames(pl)
    requires UniqueNames(pr)
    requires PhysicalTypes(pl) == Types(left) && PhysicalTypes(pr) == Types(right)
    requires RewriteKey(key, left, right, pl, pr).Some?
    requires var key' := RewriteKey(key, left, right, pl, pr).value;
      ExprType(key'.0, Unqualified(pl)) == ExprType(key'.1, Unqualified(pr))
      && SupportsKeyType(ExprType(key'.0, Unqualified(pl)))
    requires HasTypes(l, Types(left)) && HasTypes(r, Types(right))
    ensures var key' := RewriteKey(key, left, right, pl, pr).value;
      IsTrue(Compare(i, Eq, Eval(i, key.0, left, l), Eval(i, key.1, right, r))) <==>
      KeyMatches(Eval(i, key'.0, Unqualified(pl), l), Eval(i, key'.1, Unqualified(pr), r))
  {
    var key' := RewriteKey(key, left, right, pl, pr).value;
    RewriteKeySound(i, key, left, right, pl, pr, l, r);
    RewriteColumnsType(key.0, left, pl);
    RewriteColumnsType(key.1, right, pr);
    EvalConforms(i, key.0, left, l);
    EvalConforms(i, key.1, right, r);
    KeyEquality(i, Eval(i, key.0, left, l), Eval(i, key.1, right, r), ExprType(key.0, left));
  }

  ghost predicate AsOfReady(on: seq<Key>, order: Key, left: LogicalSchema, right: LogicalSchema, pl: Schema,
                            pr: Schema, equalities: seq<Key>, order': Key)
  {
    && KeyColumns(on, left, right) && AllColumns(order.0, ResolvesIn(left)) && AllColumns(order.1, ResolvesIn(right))
    && UniqueNames(pl) && UniqueNames(pr) && PhysicalTypes(pl) == Types(left) && PhysicalTypes(pr) == Types(right)
    && RewriteKeys(on, left, right, pl, pr) == Some(equalities)
    && RewriteKey(order, left, right, pl, pr) == Some(order')
    && KeyTypesAgree(equalities, pl, pr)
  }

  lemma EqualitiesSame(i: Interp, on: seq<Key>, order: Key, left: LogicalSchema, right: LogicalSchema, pl: Schema,
                       pr: Schema, equalities: seq<Key>, order': Key, l: Row, r: Row)
    requires AsOfReady(on, order, left, right, pl, pr, equalities, order') && HasTypes(l, Types(left))
    requires HasTypes(r, Types(right))
    ensures (forall k :: 0 <= k < |on| ==>
                 IsTrue(Compare(i, Eq, Eval(i, on[k].0, left, l), Eval(i, on[k].1, right, r))))
        <==> KeysMatch(i, equalities, Unqualified(pl), Unqualified(pr), l, r)
  {
    forall k | 0 <= k < |on|
      ensures IsTrue(Compare(i, Eq, Eval(i, on[k].0, left, l), Eval(i, on[k].1, right, r))) <==>
              KeyMatches(Eval(i, equalities[k].0, Unqualified(pl), l), Eval(i, equalities[k].1, Unqualified(pr), r))
    {
      assert equalities[k] == RewriteKey(on[k], left, right, pl, pr).value;
      AsOfKeySame(i, on[k], left, right, pl, pr, l, r);
    }
  }

  lemma AsOfSame(i: Interp, op: Operator, on: seq<Key>, order: Key, left: LogicalSchema, right: LogicalSchema,
                 pl: Schema, pr: Schema, equalities: seq<Key>, order': Key, lm: Bag, rm: Bag)
    requires AsOfReady(on, order, left, right, pl, pr, equalities, order') && AsOfDirection(op).Some?
    requires BagHasTypes(lm, Types(left)) && BagHasTypes(rm, Types(right))
    ensures var d := AsOfDirection(op).value;
      AsOf(PhysicalEligible(i, d.backward, d.allowExact, equalities, order', pl, pr),
           PhysicalCloser(i, d.backward, order', pr), lm, rm, |pr.fields|)
      == AsOf(AsOfEligible(i, on, order.0, op, order.1, left, right), AsOfCloser(i, op, order.1, right), lm, rm,
              |right.fields|)
  {
    var d := AsOfDirection(op).value;
    var e', e := PhysicalEligible(i, d.backward, d.allowExact, equalities, order', pl, pr),
      AsOfEligible(i, on, order.0, op, order.1, left, right);
    var c', c := PhysicalCloser(i, d.backward, order', pr), AsOfCloser(i, op, order.1, right);
    forall l, r | l in lm && r in rm
      ensures e'(l, r) == e(l, r)
    {
      EqualitiesSame(i, on, order, left, right, pl, pr, equalities, order', l, r);
      RewriteKeySound(i, order, left, right, pl, pr, l, r);
      DirectionSound(i, op, Eval(i, order.0, left, l), Eval(i, order.1, right, r));
    }
    forall x, y | x in rm && y in rm
      ensures c'(x, y) == c(x, y)
    {
      RewriteColumnsSound(i, order.1, right, pr, x);
      RewriteColumnsSound(i, order.1, right, pr, y);
    }
    assert |pr.fields| == |PhysicalTypes(pr)| == |Types(right)|;
    AsOfCong(e', c', e, c, lm, rm, |pr.fields|);
  }

  lemma AsOfTypesAgree(equalities: seq<Key>, order: Key, pl: Schema, pr: Schema)
    requires KeyTypesAgree(equalities + [order], pl, pr)
    ensures KeyTypesAgree(equalities, pl, pr)
  {
    forall k | 0 <= k < |equalities|
      ensures ExprType(equalities[k].0, Unqualified(pl)) == ExprType(equalities[k].1, Unqualified(pr))
      ensures SupportsKeyType(ExprType(equalities[k].0, Unqualified(pl)))
    {
      assert (equalities + [order])[k] == equalities[k];
    }
  }

  /** The definition an ASOF join lowers to. */
  ghost predicate AsOfLowered(p: Plan, left: LoweredRelation, right: LoweredRelation, d: Definition)
  {
    && p.AsOfJoin? && d.AsOfOp? && AsOfDirection(p.matchOp) == Some(Direction(d.backward, d.allowExact))
    && RewriteKeys(p.on, SchemaOf(p.left), SchemaOf(p.right), left.schema, right.schema) == Some(d.equalities)
    && RewriteKey((p.matchLeft, p.matchRight), SchemaOf(p.left), SchemaOf(p.right), left.schema, right.schema)
        == Some(d.order)
  }

  lemma AsOfStep(b: Binder, nodes: seq<Node>, left: LoweredRelation, right: LoweredRelation, p: Plan,
                 sources: seq<Schema>, d: Definition,
                 nodes1: seq<Node>, joined: LoweredRelation)
    requires p.AsOfJoin? && WellFormed(p, sources) && Implements(nodes, left, p.left, sources)
    requires Implements(nodes, right, p.right, sources)
    requires AsOfLowered(p, left, right, d) && Declares(b, nodes, [left, right], d, nodes1, joined)
    ensures Implements(nodes1, joined, p, sources)
  {
    DeclaredSchema(b, nodes, [left, right], d, nodes1, joined);
    BinaryInputs(left, right);
    JoinedTypes(left.schema, right.schema, d.names, false, true, map[]);
    assert PhysicalTypes(joined.schema) == Types(p.schema);
    AsOfTypesAgree(d.equalities, d.order, left.schema, right.schema);
    forall i: Interp, db: Database | DatabaseConforms(db, sources)
      ensures Evaluate(nodes1, joined.node, i, db) == Meaning(p, i, db)
    {
      DeclaredBinary(b, nodes, left, right, d, nodes1, joined, i, db);
      MeaningTyped(p.left, sources, i, db);
      MeaningTyped(p.right, sources, i, db);
      AsOfSame(i, p.matchOp, p.on, (p.matchLeft, p.matchRight), SchemaOf(p.left), SchemaOf(p.right), left.schema,
               right.schema, d.equalities, d.order,
               Meaning(p.left, i, db), Meaning(p.right, i, db));
    }
  }

  // ---- Alignment ----------------------------------------------------------

  /** Selecting every column in order, under whatever names, denotes the same plan. */
  lemma AlignedStep(nodes: seq<Node>, input: LoweredRelation, p: Plan, sources: seq<Schema>, target: Schema,
                    nodes': seq<Node>, r: LoweredRelation)
    requires WellFormed(p, sources) && Implements(nodes, input, p, sources)
    requires Projects(nodes, input, Positions(Arity(p)), target, nodes', r)
    ensures Implements(nodes', r, p, sources)
  {
    assert |PhysicalTypes(input.schema)| == Arity(p);
    assert PhysicalTypes(r.schema) == PhysicalTypes(input.schema);
    forall i: Interp, db: Database | DatabaseConforms(db, sources)
      ensures Evaluate(nodes', r.node, i, db) == Meaning(p, i, db)
    {
      MeaningTyped(p, sources, i, db);
      TypedLength(Meaning(p, i, db), Types(SchemaOf(p)));
      IdentitySelect(Positions(Arity(p)), Meaning(p, i, db));
    }
  }

  // ---- Aggregates ---------------------------------------------------------

  const COUNT_STAR: Value := Val(Int64, 1)

  /** A built-in aggregate call; counting a literal one counts rows. */
  function BuiltinCall(name: AggregateName, arg: Expr): Option<AggregateCall>
  {
    match name
    case CountFn => Some(if arg == Literal(COUNT_STAR) then CountAll else Count(arg))
    case SumFn => Some(SumOf(arg))
    case AvgFn => Some(Avg(arg))
    case MinFn => Some(Min(arg))
    case MaxFn => Some(Max(arg))
    case OtherFn(_) => None
  }

  /** Lowers a supported call over rewritten arguments. */
  function LowerCall(call: AggregateExpr, logical: LogicalSchema, physical: Schema): Option<AggregateCall>
  {
    var c := Unaliased(call);
    if !c.AggregateFunction? || c.modified then None
    else
      var args := RewriteAll(c.args, logical, physical);
      if args.None? || |args.value| != 1 then None else BuiltinCall(c.name, args.value[0])
  }

  lemma CallSame(i: Interp, call: AggregateExpr, logical: LogicalSchema, physical: Schema, g: Bag)
    requires CallColumns(call, logical) && UniqueNames(physical) && PhysicalTypes(physical) == Types(logical)
    requires LowerCall(call, logical, physical).Some?
    ensures var call' := LowerCall(call, logical, physical).value;
      PhysicalSummary(i, call', Unqualified(physical), g) == CallSummary(i, call, logical, g)
  {
    var c := Unaliased(call);
    var arg := c.args[0];
    var arg' := RewriteColumns(arg, logical, physical).value;
    RewriteColumnsType(arg, logical, physical);
    ArgumentsSame(i, arg, logical, physical, g);
    BuiltinSummary(i, c.name, arg', Unqualified(physical), g);
  }

  /** A built-in call summarises as its aggregate function does, row counting included. */
  lemma BuiltinSummary(i: Interp, name: AggregateName, arg: Expr, s: LogicalSchema, g: Bag)
    requires BuiltinCall(name, arg).Some?
    ensures PhysicalSummary(i, BuiltinCall(name, arg).value, s, g)
        == Summary(i, name, Arguments(EvaluatesOne(i, arg, s), g), ExprType(arg, s))
  {
    var call := BuiltinCall(name, arg).value;
    if call.CountAll? {
      ArgumentsCount(EvaluatesOne(i, arg, s), g);
    } else {
      assert CallName(call) == name && call.arg == arg;
    }
  }

  lemma ArgumentsSame(i: Interp, arg: Expr, logical: LogicalSchema, physical: Schema, g: Bag)
    requires AllColumns(arg, ResolvesIn(logical)) && UniqueNames(physical)
    requires RewriteColumns(arg, logical, physical).Some?
    ensures Arguments(EvaluatesOne(i, RewriteColumns(arg, logical, physical).value, Unqualified(physical)), g)
        == Arguments(EvaluatesOne(i, arg, logical), g)
  {
    var arg' := RewriteColumns(arg, logical, physical).value;
    forall r | r in g
      ensures EvaluatesOne(i, arg', Unqualified(physical))(r) == EvaluatesOne(i, arg, logical)(r)
    {
      RewriteColumnsSound(i, arg, logical, physical, r);
    }
    ArgumentsCong(EvaluatesOne(i, arg', Unqualified(physical)), EvaluatesOne(i, arg, logical), g);
  }

  function LowerCalls(calls: seq<AggregateExpr>, logical: LogicalSchema,
    physical: Schema): (r: Option<seq<AggregateCall>>)
    ensures r.Some? ==> |r.value| == |calls|
  {
    if forall k :: 0 <= k < |calls| ==> LowerCall(calls[k], logical, physical).Some?
    then Some(seq(|calls|, k requires 0 <= k < |calls|
      && LowerCall(calls[k], logical, physical).Some? =>
      LowerCall(calls[k], logical, physical).value))
    else None
  }

  lemma LowerCallSupported(call: AggregateExpr, logical: LogicalSchema, physical: Schema)
    requires CallColumns(call, logical) && |logical.fields| == |physical.fields|
    ensures LowerCall(call, logical, physical).Some? <==> SupportedCall(call)
  {
    RewriteAllTotal(Unaliased(call).args, logical, physical);
  }

  function Named<T>(names: seq<string>, values: seq<T>): (r: seq<(string, T)>)
    requires |names| == |values|
    ensures |r| == |values|
  {
    seq(|values|, k requires 0 <= k < |values| => (names[k], values[k]))
  }

  function NamesOf(s: LogicalSchema, from: nat, count: nat): (r: seq<string>)
    requires from + count <= |s.fields|
    ensures |r| == count
  {
    seq(count, k requires 0 <= k < count => s.fields[from + k].field.name)
  }

  lemma SummariesSame(i: Interp, names: seq<string>, calls: seq<AggregateExpr>, logical: LogicalSchema,
                      physical: Schema, g: Bag)
    requires forall k :: 0 <= k < |calls| ==> CallColumns(calls[k], logical)
    requires UniqueNames(physical) && PhysicalTypes(physical) == Types(logical) && |names| == |calls|
    requires LowerCalls(calls, logical, physical).Some?
    ensures PhysicalSummaries(i, Named(names, LowerCalls(calls, logical, physical).value), Unqualified(physical))(g)
        == Summaries(i, calls, logical)(g)
  {
    var calls' := Named(names, LowerCalls(calls, logical, physical).value);
    forall k | 0 <= k < |calls|
      ensures PhysicalSummary(i, calls'[k].1, Unqualified(physical), g) == CallSummary(i, calls[k], logical, g)
    {
      CallSame(i, calls[k], logical, physical, g);
    }
  }

  lemma GroupBySame(i: Interp, groups: seq<GroupExpr>, calls: seq<AggregateExpr>, logical: LogicalSchema,
                    physical: Schema, groupNames: seq<string>, callNames: seq<string>, m: Bag)
    requires AggregateColumns(groups, calls, logical) && UniqueNames(physical)
    requires PhysicalTypes(physical) == Types(logical)
    requires |groupNames| == |groups| && |callNames| == |calls|
    requires RewriteAll(GroupKeys(groups), logical, physical).Some? && LowerCalls(calls, logical, physical).Some?
    ensures GroupBy(Evaluates(i, RewriteAll(GroupKeys(groups), logical, physical).value, Unqualified(physical)),
                    PhysicalSummaries(i, Named(callNames, LowerCalls(calls, logical, physical).value),
                                      Unqualified(physical)), m)
         == GroupBy(Evaluates(i, GroupKeys(groups), logical), Summaries(i, calls, logical), m)
  {
    var key' := Evaluates(i, RewriteAll(GroupKeys(groups), logical, physical).value, Unqualified(physical));
    var key := Evaluates(i, GroupKeys(groups), logical);
    var s' := PhysicalSummaries(i, Named(callNames, LowerCalls(calls, logical, physical).value), Unqualified(physical));
    forall r | r in m
      ensures key'(r) == key(r)
    {
      EvalAllSame(i, GroupKeys(groups), logical, physical, r);
    }
    forall g: Bag
      ensures s'(g) == Summaries(i, calls, logical)(g)
    {
      SummariesSame(i, callNames, calls, logical, physical, g);
    }
    GroupByCong(key', s', key, Summaries(i, calls, logical), m);
  }

  lemma AggregateTypes(b: Binder, groups: seq<Expr>, calls: seq<AggregateCall>, groupNames: seq<string>,
                       callNames: seq<string>, input: Schema)
    requires |groupNames| == |groups| && |callNames| == |calls|
    ensures GroupExpressions(Named(groupNames, groups)) == groups
    ensures var s := AggregateSchema(b, Named(groupNames, groups), Named(callNames, calls), input);
      && (forall k :: 0 <= k < |groups| ==> PhysicalTypes(s)[k] == ExprType(groups[k], Unqualified(input)))
      && (forall k :: 0 <= k < |calls| ==>
              PhysicalTypes(s)[|groups| + k] == CallOutputType(calls[k], Unqualified(input)))
  {
  }

  ghost predicate AggregateLowered(p: Plan, input: LoweredRelation, groups: seq<Expr>, calls: seq<AggregateCall>)
  {
    && p.Aggregate? && |p.schema.fields| == |p.groups| + |p.calls|
    && RewriteAll(GroupKeys(p.groups), SchemaOf(p.input), input.schema) == Some(groups)
    && LowerCalls(p.calls, SchemaOf(p.input), input.schema) == Some(calls)
  }

  function AggregateDefinition(schema: LogicalSchema, groups: seq<Expr>, calls: seq<AggregateCall>): Definition
    requires |schema.fields| == |groups| + |calls|
  {
    AggregateOp(Named(NamesOf(schema, 0, |groups|), groups), Named(NamesOf(schema, |groups|, |calls|), calls))
  }

  lemma AggregateStep(b: Binder, nodes: seq<Node>, input: LoweredRelation, p: Plan, sources: seq<Schema>,
                      groups: seq<Expr>, calls: seq<AggregateCall>,
                      nodes': seq<Node>, r: LoweredRelation)
    requires p.Aggregate? && WellFormed(p, sources) && Implements(nodes, input, p.input, sources)
    requires AggregateLowered(p, input, groups, calls)
    requires Declares(b, nodes, [input], AggregateDefinition(p.schema, groups, calls), nodes', r)
    ensures Implements(nodes', r, p, sources)
  {
    var logical := SchemaOf(p.input);
    var d := AggregateDefinition(p.schema, groups, calls);
    var gn, cn := NamesOf(p.schema, 0, |groups|), NamesOf(p.schema, |groups|, |calls|);
    DeclaredSchema(b, nodes, [input], d, nodes', r);
    UnaryInputs(input);
    AggregateTypes(b, groups, calls, gn, cn, input.schema);
    RewrittenTypes(GroupKeys(p.groups), logical, input.schema);
    AggregateOutput(b, p, sources, input, groups, calls, r.schema);
    forall i: Interp, db: Database | DatabaseConforms(db, sources)
      ensures Evaluate(nodes', r.node, i, db) == Meaning(p, i, db)
    {
      DeclaredUnary(b, nodes, input, d, nodes', r, i, db);
      GroupBySame(i, p.groups, p.calls, logical, input.schema, gn, cn, Meaning(p.input, i, db));
    }
  }

  lemma AggregateOutput(b: Binder, p: Plan, sources: seq<Schema>, input: LoweredRelation, groups: seq<Expr>,
                        calls: seq<AggregateCall>, output: Schema)
    requires p.Aggregate? && WellFormed(p, sources) && AggregateLowered(p, input, groups, calls)
    requires UniqueNames(input.schema) && PhysicalTypes(input.schema) == Types(SchemaOf(p.input))
    requires output
        == AggregateSchema(b, Named(NamesOf(p.schema, 0, |groups|), groups),
                           Named(NamesOf(p.schema, |groups|, |calls|), calls), input.schema)
    ensures PhysicalTypes(output) == Types(p.schema)
  {
    AggregateTypes(b, groups, calls, NamesOf(p.schema, 0, |groups|), NamesOf(p.schema, |groups|, |calls|),
                   input.schema);
    RewrittenTypes(GroupKeys(p.groups), SchemaOf(p.input), input.schema);
    CallTypesSame(p.calls, SchemaOf(p.input), input.schema);
    assert PhysicalTypes(output)[..|groups|] == Types(p.schema)[..|groups|];
    assert PhysicalTypes(output)[|groups|..] == Types(p.schema)[|groups|..];
  }

  lemma CallTypesSame(calls: seq<AggregateExpr>, logical: LogicalSchema, physical: Schema)
    requires forall k :: 0 <= k < |calls| ==> CallColumns(calls[k], logical)
    requires UniqueNames(physical) && PhysicalTypes(physical) == Types(logical)
    requires LowerCalls(calls, logical, physical).Some?
    ensures forall k :: 0 <= k < |calls| ==>
        CallOutputType(LowerCalls(calls, logical, physical).value[k], Unqualified(physical))
          == CallType(calls[k], logical)
  {
    forall k | 0 <= k < |calls|
      ensures CallOutputType(LowerCalls(calls, logical, physical).value[k], Unqualified(physical))
          == CallType(calls[k], logical)
    {
      CallTypeSame(calls[k], logical, physical);
    }
  }

  lemma CallTypeSame(call: AggregateExpr, logical: LogicalSchema, physical: Schema)
    requires CallColumns(call, logical) && UniqueNames(physical) && PhysicalTypes(physical) == Types(logical)
    requires LowerCall(call, logical, physical).Some?
    ensures CallOutputType(LowerCall(call, logical, physical).value, Unqualified(physical)) == CallType(call, logical)
  {
    RewriteColumnsType(Unaliased(call).args[0], logical, physical);
  }

  // ---- Distinct, aliases and unions ---------------------------------------

  lemma DistinctStep(b: Binder, nodes: seq<Node>, input: LoweredRelation, p: Plan, sources: seq<Schema>,
                     nodes': seq<Node>, r: LoweredRelation)
    requires p.Deduplicate? && Implements(nodes, input, p.input, sources)
    requires Declares(b, nodes, [input], DistinctOp, nodes', r)
    ensures Implements(nodes', r, p, sources)
  {
    DeclaredSchema(b, nodes, [input], DistinctOp, nodes', r);
    UnaryInputs(input);
    forall i: Interp, db: Database | DatabaseConforms(db, sources)
      ensures Evaluate(nodes', r.node, i, db) == Meaning(p, i, db)
    {
      DeclaredUnary(b, nodes, input, DistinctOp, nodes', r, i, db);
    }
  }

  lemma AliasStep(nodes: seq<Node>, r: LoweredRelation, p: Plan, sources: seq<Schema>)
    requires p.SubqueryAlias? && WellFormed(p, sources) && Implements(nodes, r, p.input, sources)
    ensures Implements(nodes, r, p, sources)
  {
    forall i: Interp, db: Database | DatabaseConforms(db, sources)
      ensures Evaluate(nodes, r.node, i, db) == Meaning(p, i, db)
    {
    }
  }

  lemma UnionStep(b: Binder, nodes: seq<Node>, inputs: seq<LoweredRelation>, p: Plan, sources: seq<Schema>,
                  nodes': seq<Node>, r: LoweredRelation)
    requires p.Union? && WellFormed(p, sources) && |inputs| == |p.inputs|
    requires forall k :: 0 <= k < |inputs| ==> Implements(nodes, inputs[k], p.inputs[k], sources)
    requires Declares(b, nodes, inputs, UnionAllOp(|inputs|), nodes', r)
    ensures Implements(nodes', r, p, sources)
  {
    DeclaredSchema(b, nodes, inputs, UnionAllOp(|inputs|), nodes', r);
    assert SchemasOf(inputs)[0] == inputs[0].schema;
    assert PhysicalTypes(inputs[0].schema)
        == Types(SchemaOf(p.inputs[0])) by { assert Implements(nodes, inputs[0], p.inputs[0], sources); }
    forall i: Interp, db: Database | DatabaseConforms(db, sources)
      ensures Evaluate(nodes', r.node, i, db) == Meaning(p, i, db)
    {
      DeclaredEvaluate(b, nodes, inputs, UnionAllOp(|inputs|), nodes', r, i, db);
      UnionBags(nodes, inputs, p, sources, i, db);
    }
  }

  lemma UnionBags(nodes: seq<Node>, inputs: seq<LoweredRelation>, p: Plan, sources: seq<Schema>, i: Interp,
                  db: Database)
    requires p.Union? && |inputs| == |p.inputs| && DatabaseConforms(db, sources)
    requires forall k :: 0 <= k < |inputs| ==> IsRelation(nodes, inputs[k])
    requires forall k :: 0 <= k < |inputs| ==> Implements(nodes, inputs[k], p.inputs[k], sources)
    ensures Sum(BagsOf(nodes, inputs, i, db)) == Meaning(p, i, db)
  {
    forall k | 0 <= k < |inputs|
      ensures BagsOf(nodes, inputs, i, db)[k] == Meaning(p.inputs[k], i, db)
    {
      assert Implements(nodes, inputs[k], p.inputs[k], sources);
    }
    assert BagsOf(nodes, inputs, i, db)
        == seq(|p.inputs|, k requires 0 <= k < |p.inputs| => Meaning(p.inputs[k], i, db));
  }
}
