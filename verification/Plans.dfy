/** Logical relational plans, as the SQL planner hands them over, and their bag meaning. */
module Plans {
  import opened Bags
  import opened Options
  import opened Expressions
  import opened Relational
  import opened JoinConditions

  datatype JoinConstraint = On | Using

  datatype AggregateExpr =
    | AggregateFunction(name: AggregateName, args: seq<Expr>, modified: bool)
    | AliasOf(inner: AggregateExpr, alias: string)
    | NotAnAggregate

  datatype GroupExpr = GroupKey(expr: Expr) | GroupingSet

  datatype Plan =
    | TableScan(source: nat, projection: Option<seq<nat>>, schema: LogicalSchema, embedded: bool)
    | Filtering(condition: Expr, input: Plan)
    | Projection(exprs: seq<Expr>, schema: LogicalSchema, input: Plan)
    | Deduplicate(input: Plan)
    | Join(left: Plan, right: Plan, kind: JoinType, on: seq<(Expr, Expr)>, filter: Option<Expr>, schema: LogicalSchema,
           constraint: JoinConstraint, nullEqualsNull: bool, nullAware: bool)
    | AsOfJoin(left: Plan, right: Plan, on: seq<(Expr, Expr)>, matchLeft: Expr, matchOp: Operator, matchRight: Expr,
               schema: LogicalSchema, constraint: JoinConstraint)
    | Aggregate(groups: seq<GroupExpr>, calls: seq<AggregateExpr>, schema: LogicalSchema, input: Plan)
    | Union(inputs: seq<Plan>, schema: LogicalSchema)
    | SubqueryAlias(input: Plan, schema: LogicalSchema)
    | Unsupported(schema: LogicalSchema)

  function SchemaOf(p: Plan): LogicalSchema
  {
    match p
    case Filtering(_, input) => SchemaOf(input)
    case Deduplicate(input) => SchemaOf(input)
    case _ => p.schema
  }

  function Arity(p: Plan): nat
  {
    |SchemaOf(p).fields|
  }

  function Positions(n: nat): (r: seq<nat>)
    ensures |r| == n && forall k :: 0 <= k < n ==> r[k] == k
  {
    seq(n, k => k)
  }

  function ScanPositions(projection: Option<seq<nat>>, n: nat): seq<nat>
  {
    if projection.Some? then projection.value else Positions(n)
  }

  function Unaliased(e: AggregateExpr): (r: AggregateExpr)
    ensures !r.AliasOf?
  {
    if e.AliasOf? then Unaliased(e.inner) else e
  }

  function GroupKeys(groups: seq<GroupExpr>): (r: seq<Expr>)
    ensures |r| == |groups|
  {
    seq(|groups|, k requires 0 <= k < |groups| => if groups[k].GroupKey? then groups[k].expr else Literal(Null))
  }

  function SummaryType(name: AggregateName, argument: DataType): DataType
  {
    if name.CountFn? then Int64 else if name.AvgFn? then Float(64) else argument
  }

  function CallType(call: AggregateExpr, s: LogicalSchema): DataType
  {
    var c := Unaliased(call);
    if c.AggregateFunction? && |c.args| == 1 then SummaryType(c.name, ExprType(c.args[0], s)) else Flat(0)
  }

  function JoinTypes(kind: JoinType, left: seq<DataType>, right: seq<DataType>): seq<DataType>
  {
    match kind
    case LeftSemi => left
    case LeftAnti => left
    case RightSemi => right
    case RightAnti => right
    case _ => left + right
  }

  predicate OrderOperator(op: Operator)
  {
    op.Lt? || op.LtEq? || op.Gt? || op.GtEq?
  }

  /** What the planner guarantees of the plans it produces. */
  ghost predicate WellFormed(p: Plan, sources: seq<Schema>)
  {
    match p
    case TableScan(source, projection, schema, embedded) =>
      && source < |sources| && !embedded
      && ScanOf(projection, schema, sources[source])
    case Filtering(condition, input) =>
      WellFormed(input, sources) && AllColumns(condition, ResolvesIn(SchemaOf(input)))
    case Projection(exprs, schema, input) =>
      && WellFormed(input, sources) && |exprs| == |schema.fields|
      && forall k :: 0 <= k < |exprs| ==>
           AllColumns(exprs[k], ResolvesIn(SchemaOf(input))) && Types(schema)[k] == ExprType(exprs[k], SchemaOf(input))
    case Deduplicate(input) => WellFormed(input, sources)
    case Join(left, right, kind, on, filter, schema, _, _, _) =>
      && WellFormed(left, sources) && WellFormed(right, sources)
      && JoinColumns(on, filter, SchemaOf(left), SchemaOf(right))
      && (!kind.LeftMark? && !kind.RightMark? ==>
              Types(schema) == JoinTypes(kind, Types(SchemaOf(left)), Types(SchemaOf(right))))
    case AsOfJoin(left, right, on, matchLeft, matchOp, matchRight, schema, _) =>
      && WellFormed(left, sources) && WellFormed(right, sources) && OrderOperator(matchOp)
      && AsOfColumns(on, matchLeft, matchRight, SchemaOf(left), SchemaOf(right))
      && Types(schema) == Types(SchemaOf(left)) + Types(SchemaOf(right))
    case Aggregate(groups, calls, schema, input) =>
      && WellFormed(input, sources)
      && AggregateColumns(groups, calls, SchemaOf(input))
      && |schema.fields| == |groups| + |calls|
      && (forall k :: 0 <= k < |groups| ==> Types(schema)[k] == ExprType(GroupKeys(groups)[k], SchemaOf(input)))
      && (forall k :: 0 <= k < |calls| ==> Types(schema)[|groups| + k] == CallType(calls[k], SchemaOf(input)))
    case Union(inputs, schema) =>
      && 1 <= |inputs| < 0x1_0000_0000
      && forall k :: 0 <= k < |inputs| ==> WellFormed(inputs[k], sources) && Types(SchemaOf(inputs[k])) == Types(schema)
    case SubqueryAlias(input, schema) => WellFormed(input, sources) && Types(schema) == Types(SchemaOf(input))
    case Unsupported(_) => true
  }

  /** The projected schema of a scan lists the source fields at its positions. */
  ghost predicate ScanOf(projection: Option<seq<nat>>, schema: LogicalSchema, source: Schema)
  {
    var positions := ScanPositions(projection, |source.fields|);
    && |positions| == |schema.fields|
    && forall k :: 0 <= k < |positions| ==>
         positions[k] < |source.fields| && schema.fields[k].field == source.fields[positions[k]]
  }

  ghost predicate JoinColumns(on: seq<(Expr, Expr)>, filter: Option<Expr>, left: LogicalSchema, right: LogicalSchema)
  {
    && (forall k :: 0 <= k < |on| ==>
            AllColumns(on[k].0, BelongsToOne(left, right)) && AllColumns(on[k].1, BelongsToOne(left, right)))
    && (filter.Some? ==> AllColumns(filter.value, BelongsToOne(left, right)))
  }

  ghost predicate AsOfColumns(on: seq<(Expr, Expr)>, matchLeft: Expr, matchRight: Expr, left: LogicalSchema,
                              right: LogicalSchema)
  {
    && (forall k :: 0 <= k < |on| ==> AllColumns(on[k].0, ResolvesIn(left)) && AllColumns(on[k].1, ResolvesIn(right)))
    && AllColumns(matchLeft, ResolvesIn(left)) && AllColumns(matchRight, ResolvesIn(right))
  }

  ghost predicate CallColumns(call: AggregateExpr, s: LogicalSchema)
  {
    Unaliased(call).AggregateFunction? &&
    forall k :: 0 <= k < |Unaliased(call).args| ==> AllColumns(Unaliased(call).args[k], ResolvesIn(s))
  }

  ghost predicate AggregateColumns(groups: seq<GroupExpr>, calls: seq<AggregateExpr>, s: LogicalSchema)
  {
    && (forall k :: 0 <= k < |groups| ==> AllColumns(GroupKeys(groups)[k], ResolvesIn(s)))
    && (forall k :: 0 <= k < |calls| ==> CallColumns(calls[k], s))
  }

  predicate SupportedAggregate(name: AggregateName)
  {
    !name.OtherFn?
  }

  predicate SupportedCall(call: AggregateExpr)
  {
    var c := Unaliased(call);
    c.AggregateFunction? && !c.modified && |c.args| == 1 && SupportedAggregate(c.name)
  }

  predicate SupportedGroups(groups: seq<GroupExpr>)
  {
    groups != [] && forall k :: 0 <= k < |groups| ==> groups[k].GroupKey?
  }

  /** The relational capabilities lowering offers. */
  predicate Supported(p: Plan)
  {
    match p
    case TableScan(_, _, _, _) => true
    case Filtering(_, input) => Supported(input)
    case Projection(_, _, input) => Supported(input)
    case Deduplicate(input) => Supported(input)
    case Join(left, right, kind, on, filter, _, constraint, nullEqualsNull, nullAware) =>
      && constraint.On? && !nullEqualsNull && !nullAware && !kind.LeftMark? && !kind.RightMark?
      && Linked(on, filter, SchemaOf(left), SchemaOf(right))
      && Supported(left) && Supported(right)
    case AsOfJoin(left, right, _, _, _, _, _, _) => Supported(left) && Supported(right)
    case Aggregate(groups, calls, _, input) =>
      SupportedGroups(groups) && (forall k :: 0 <= k < |calls| ==> SupportedCall(calls[k])) && Supported(input)
    case Union(inputs, _) => forall k :: 0 <= k < |inputs| ==> Supported(inputs[k])
    case SubqueryAlias(input, _) => Supported(input)
    case Unsupported(_) => false
  }

  /** Contents of the sources, in order. */
  type Database = seq<Bag>

  ghost predicate DatabaseConforms(db: Database, sources: seq<Schema>)
  {
    |db| == |sources| && forall s :: 0 <= s < |db| ==> BagHasTypes(db[s], PhysicalTypes(sources[s]))
  }

  ghost predicate BagHasTypes(m: Bag, types: seq<DataType>)
  {
    forall r :: r in m ==> HasTypes(r, types)
  }

  ghost function Satisfies(i: Interp, e: Expr, s: LogicalSchema): Row -> bool
  {
    row => IsTrue(Eval(i, e, s, row))
  }

  ghost function Evaluates(i: Interp, es: seq<Expr>, s: LogicalSchema): Row -> Row
  {
    row => EvalAll(i, es, s, row)
  }

  ghost function EvaluatesOne(i: Interp, e: Expr, s: LogicalSchema): Row -> Value
  {
    row => Eval(i, e, s, row)
  }

  /** SQL's join condition: every ON equality and the filter are TRUE. */
  ghost function JoinOn(i: Interp, on: seq<(Expr, Expr)>, filter: Option<Expr>, left: LogicalSchema,
                        right: LogicalSchema): Condition
  {
    (l, r) =>
      && (forall k :: 0 <= k < |on| ==> IsTrue(Eval(i, EqualityOf(on[k]), Beside(left, right), l + r)))
      && (filter.Some? ==> IsTrue(Eval(i, filter.value, Beside(left, right), l + r)))
  }

  ghost function AsOfEligible(i: Interp, on: seq<(Expr, Expr)>, matchLeft: Expr, op: Operator, matchRight: Expr,
                              left: LogicalSchema, right: LogicalSchema): Condition
  {
    (l, r) =>
      && (forall k :: 0 <= k < |on| ==> IsTrue(Compare(i, Eq, Eval(i, on[k].0, left, l), Eval(i, on[k].1, right, r))))
      && IsTrue(Compare(i, op, Eval(i, matchLeft, left, l), Eval(i, matchRight, right, r)))
  }

  /** `>` and `>=` prefer later right values, `<` and `<=` earlier ones. */
  ghost function AsOfCloser(i: Interp, op: Operator, matchRight: Expr, right: LogicalSchema): (Row, Row) -> bool
  {
    (a, b) =>
      var x, y := Eval(i, matchRight, right, a), Eval(i, matchRight, right, b);
      if op.Gt? || op.GtEq? then i.less(y, x) else i.less(x, y)
  }

  ghost function Summary(i: Interp, name: AggregateName, values: multiset<Value>, argument: DataType): (v: Value)
    ensures Conforms(v, SummaryType(name, argument))
  {
    if name.CountFn? then Val(Int64, |values|) else OfType(i.summary(name, values), SummaryType(name, argument))
  }

  ghost function CallSummary(i: Interp, call: AggregateExpr, s: LogicalSchema, g: Bag): (v: Value)
    ensures Conforms(v, CallType(call, s))
  {
    var c := Unaliased(call);
    if c.AggregateFunction? && |c.args| == 1
    then Summary(i, c.name, Arguments(EvaluatesOne(i, c.args[0], s), g), ExprType(c.args[0], s))
    else Null
  }

  ghost function Summaries(i: Interp, calls: seq<AggregateExpr>, s: LogicalSchema): Bag -> Row
  {
    g => seq(|calls|, k requires 0 <= k < |calls| => CallSummary(i, calls[k], s, g))
  }

  ghost function Sum(bags: seq<Bag>): Bag
  {
    if bags == [] then multiset{} else Sum(bags[..|bags| - 1]) + bags[|bags| - 1]
  }

  /** The bag of rows a plan denotes. */
  ghost function Meaning(p: Plan, i: Interp, db: Database): Bag
  {
    match p
    case TableScan(source, projection, schema, _) =>
      if source < |db| then Map(Select(ScanPositions(projection, |schema.fields|)), db[source]) else multiset{}
    case Filtering(condition, input) => Filter(Satisfies(i, condition, SchemaOf(input)), Meaning(input, i, db))
    case Projection(exprs, _, input) => Map(Evaluates(i, exprs, SchemaOf(input)), Meaning(input, i, db))
    case Deduplicate(input) => Distinct(Meaning(input, i, db))
    case Join(left, right, kind, on, filter, _, _, _, _) =>
      SqlJoin(kind, JoinOn(i, on, filter, SchemaOf(left), SchemaOf(right)), Meaning(left, i, db),
              Meaning(right, i, db), Arity(left), Arity(right))
    case AsOfJoin(left, right, on, matchLeft, op, matchRight, _, _) =>
      AsOf(AsOfEligible(i, on, matchLeft, op, matchRight, SchemaOf(left), SchemaOf(right)),
           AsOfCloser(i, op, matchRight, SchemaOf(right)),
           Meaning(left, i, db), Meaning(right, i, db), Arity(right))
    case Aggregate(groups, calls, _, input) =>
      GroupBy(Evaluates(i, GroupKeys(groups), SchemaOf(input)), Summaries(i, calls, SchemaOf(input)),
              Meaning(input, i, db))
    case Union(inputs, _) => Sum(seq(|inputs|, k requires 0 <= k < |inputs| => Meaning(inputs[k], i, db)))
    case SubqueryAlias(input, _) => Meaning(input, i, db)
    case Unsupported(_) => multiset{}
  }

  lemma NullsHaveTypes(types: seq<DataType>)
    ensures HasTypes(Nulls(|types|), types)
  {
  }

  lemma ConcatHasTypes(l: Row, r: Row, left: seq<DataType>, right: seq<DataType>)
    requires HasTypes(l, left) && HasTypes(r, right)
    ensures HasTypes(l + r, left + right)
  {
  }

  lemma WhenTyped(p: Row -> bool, g: Row -> Row, m: Bag, types: seq<DataType>)
    requires forall r :: r in m && p(r) ==> HasTypes(g(r), types)
    ensures BagHasTypes(FlatMap(When(p, g), m), types)
  {
    FlatMapAll(When(p, g), m, (r: Row) => HasTypes(r, types));
  }

  lemma PairsTyped(on: Condition, left: Bag, right: Bag, lt: seq<DataType>, rt: seq<DataType>)
    requires BagHasTypes(left, lt) && BagHasTypes(right, rt)
    ensures BagHasTypes(Cross(PairWhen(on, Concat()), left, right), lt + rt)
  {
    forall y | y in Cross(PairWhen(on, Concat()), left, right)
      ensures HasTypes(y, lt + rt)
    {
      var l := FlatMapMember(AcrossRight(PairWhen(on, Concat()), right), left, y);
      var r := FlatMapMember(Fixed(PairWhen(on, Concat()), l), right, y);
      ConcatHasTypes(l, r, lt, rt);
    }
  }

  lemma PaddedTyped(p: Row -> bool, left: Bag, lt: seq<DataType>, rt: seq<DataType>)
    requires BagHasTypes(left, lt)
    ensures BagHasTypes(FlatMap(When(p, PadRight(|rt|)), left), lt + rt)
    ensures BagHasTypes(FlatMap(When(p, PadLeft(|rt|)), left), rt + lt)
  {
    NullsHaveTypes(rt);
    forall r | r in left
      ensures HasTypes(PadRight(|rt|)(r), lt + rt) && HasTypes(PadLeft(|rt|)(r), rt + lt)
    {
      ConcatHasTypes(r, Nulls(|rt|), lt, rt);
      ConcatHasTypes(Nulls(|rt|), r, rt, lt);
    }
    WhenTyped(p, PadRight(|rt|), left, lt + rt);
    WhenTyped(p, PadLeft(|rt|), left, rt + lt);
  }

  lemma SqlJoinTyped(kind: JoinType, on: Condition, left: Bag, right: Bag, lt: seq<DataType>, rt: seq<DataType>)
    requires BagHasTypes(left, lt) && BagHasTypes(right, rt)
    ensures BagHasTypes(SqlJoin(kind, on, left, right, |lt|, |rt|), JoinTypes(kind, lt, rt))
  {
    match kind
    case LeftSemi => WhenTyped(Matched(on, right), Itself(), left, lt);
    case LeftAnti => WhenTyped(Unmatched(on, right), Itself(), left, lt);
    case RightSemi => WhenTyped(Matched(Turned(on), left), Itself(), right, rt);
    case RightAnti => WhenTyped(Unmatched(Turned(on), left), Itself(), right, rt);
    case LeftMark =>
    case RightMark =>
    case _ =>
      PairsTyped(on, left, right, lt, rt);
      PaddedTyped(Unmatched(on, right), left, lt, rt);
      PaddedTyped(Unmatched(Turned(on), left), right, rt, lt);
  }

  lemma AsOfTyped(eligible: Condition, closer: (Row, Row) -> bool, left: Bag, right: Bag, lt: seq<DataType>,
                  rt: seq<DataType>)
    requires BagHasTypes(left, lt) && BagHasTypes(right, rt)
    ensures BagHasTypes(AsOf(eligible, closer, left, right, |rt|), lt + rt)
  {
    forall y | y in AsOf(eligible, closer, left, right, |rt|)
      ensures HasTypes(y, lt + rt)
    {
      var l := FlatMapMember(AsOfRow(eligible, closer, right, |rt|), left, y);
      var w := Winners(eligible, closer, l, right);
      if w == {} {
        NullsHaveTypes(rt);
        ConcatHasTypes(l, Nulls(|rt|), lt, rt);
      } else {
        var r := FlatMapMember(Joined(l), multiset(w), y);
        ConcatHasTypes(l, r, lt, rt);
      }
    }
  }

  lemma {:induction false} SumMember(bags: seq<Bag>, r: Row) returns (k: nat)
    requires r in Sum(bags)
    ensures k < |bags| && r in bags[k]
  {
    k := |bags| - 1;
    if r !in bags[k] {
      k := SumMember(bags[..|bags| - 1], r);
    }
  }

  lemma GroupByTyped(i: Interp, groups: seq<GroupExpr>, calls: seq<AggregateExpr>, s: LogicalSchema, m: Bag,
                     types: seq<DataType>)
    requires BagHasTypes(m, Types(s)) && |types| == |groups| + |calls|
    requires forall k :: 0 <= k < |groups| ==> types[k] == ExprType(GroupKeys(groups)[k], s)
    requires forall k :: 0 <= k < |calls| ==> types[|groups| + k] == CallType(calls[k], s)
    ensures BagHasTypes(GroupBy(Evaluates(i, GroupKeys(groups), s), Summaries(i, calls, s), m), types)
  {
    var key := Evaluates(i, GroupKeys(groups), s);
    var summaries := Summaries(i, calls, s);
    var keys := set r | r in m :: key(r);
    forall y | y in GroupBy(key, summaries, m)
      ensures HasTypes(y, types)
    {
      var k := FlatMapMember(GroupRow(key, summaries, m), multiset(keys), y);
      var r :| r in m && key(r) == k;
      GroupRowTyped(i, groups, calls, s, r, Group(key, k, m), types);
    }
  }

  lemma GroupRowTyped(i: Interp, groups: seq<GroupExpr>, calls: seq<AggregateExpr>, s: LogicalSchema, r: Row, g: Bag,
                      types: seq<DataType>)
    requires HasTypes(r, Types(s)) && |types| == |groups| + |calls|
    requires forall k :: 0 <= k < |groups| ==> types[k] == ExprType(GroupKeys(groups)[k], s)
    requires forall k :: 0 <= k < |calls| ==> types[|groups| + k] == CallType(calls[k], s)
    ensures HasTypes(EvalAll(i, GroupKeys(groups), s, r) + Summaries(i, calls, s)(g), types)
  {
    forall j | 0 <= j < |groups|
      ensures Conforms(Eval(i, GroupKeys(groups)[j], s, r), types[j])
    {
      EvalConforms(i, GroupKeys(groups)[j], s, r);
    }
    SummariesTyped(i, calls, s, g, types[|groups|..]);
  }

  lemma SummariesTyped(i: Interp, calls: seq<AggregateExpr>, s: LogicalSchema, g: Bag, types: seq<DataType>)
    requires |types| == |calls| && forall k :: 0 <= k < |calls| ==> types[k] == CallType(calls[k], s)
    ensures HasTypes(Summaries(i, calls, s)(g), types)
  {
    var summaries := Summaries(i, calls, s)(g);
    forall j | 0 <= j < |calls|
      ensures Conforms(summaries[j], types[j])
    {
      assert summaries[j] == CallSummary(i, calls[j], s, g);
    }
  }

  lemma SelectTyped(projection: Option<seq<nat>>, schema: LogicalSchema, source: Schema, m: Bag)
    requires ScanOf(projection, schema, source) && BagHasTypes(m, PhysicalTypes(source))
    ensures BagHasTypes(Map(Select(ScanPositions(projection, |schema.fields|)), m), Types(schema))
  {
    var positions := ScanPositions(projection, |schema.fields|);
    assert positions == ScanPositions(projection, |source.fields|);
    forall r | r in m
      ensures HasTypes(Select(positions)(r), Types(schema))
    {
      forall k | 0 <= k < |positions|
        ensures Conforms(r[positions[k]], Types(schema)[k])
      {
        assert schema.fields[k].field == source.fields[positions[k]];
        assert Conforms(r[positions[k]], PhysicalTypes(source)[positions[k]]);
      }
    }
    WhenTyped(Always(), Select(positions), m, Types(schema));
  }

  /** Every row of a plan's meaning has the types of the plan's schema. */
  lemma {:induction false} MeaningTyped(p: Plan, sources: seq<Schema>, i: Interp, db: Database)
    requires WellFormed(p, sources) && DatabaseConforms(db, sources)
    ensures BagHasTypes(Meaning(p, i, db), Types(SchemaOf(p)))
  {
    match p
    case TableScan(source, projection, schema, _) => SelectTyped(projection, schema, sources[source], db[source]);
    case Filtering(e, input) =>
      MeaningTyped(input, sources, i, db);
      FilterTyped(Satisfies(i, e, SchemaOf(input)), Meaning(input, i, db), Types(SchemaOf(input)));
    case Projection(exprs, schema, input) =>
      MeaningTyped(input, sources, i, db);
      ProjectionTyped(i, exprs, SchemaOf(input), Meaning(input, i, db), Types(schema));
    case Deduplicate(input) => MeaningTyped(input, sources, i, db);
    case Join(left, right, _, _, _, _, _, _, _) =>
      MeaningTyped(left, sources, i, db);
      MeaningTyped(right, sources, i, db);
      JoinedTyped(p, i, db);
    case AsOfJoin(left, right, _, _, _, _, _, _) =>
      MeaningTyped(left, sources, i, db);
      MeaningTyped(right, sources, i, db);
      AsOfJoinedTyped(p, i, db);
    case Aggregate(groups, calls, schema, input) =>
      MeaningTyped(input, sources, i, db);
      GroupByTyped(i, groups, calls, SchemaOf(input), Meaning(input, i, db), Types(schema));
    case Union(inputs, schema) =>
      forall k | 0 <= k < |inputs|
        ensures BagHasTypes(Meaning(inputs[k], i, db), Types(schema))
      {
        MeaningTyped(inputs[k], sources, i, db);
      }
      var bags := seq(|inputs|, k requires 0 <= k < |inputs| => Meaning(inputs[k], i, db));
      SumTyped(bags, Types(schema));
    case SubqueryAlias(input, _) => MeaningTyped(input, sources, i, db);
    case Unsupported(_) =>
  }

  lemma JoinedTyped(p: Plan, i: Interp, db: Database)
    requires p.Join? && BagHasTypes(Meaning(p.left, i, db), Types(SchemaOf(p.left)))
    requires BagHasTypes(Meaning(p.right, i, db), Types(SchemaOf(p.right)))
    requires !p.kind.LeftMark? && !p.kind.RightMark? ==>
      Types(p.schema) == JoinTypes(p.kind, Types(SchemaOf(p.left)), Types(SchemaOf(p.right)))
    ensures BagHasTypes(Meaning(p, i, db), Types(p.schema))
  {
    SqlJoinTyped(p.kind, JoinOn(i, p.on, p.filter, SchemaOf(p.left), SchemaOf(p.right)), Meaning(p.left, i, db),
                 Meaning(p.right, i, db), Types(SchemaOf(p.left)), Types(SchemaOf(p.right)));
  }

  lemma AsOfJoinedTyped(p: Plan, i: Interp, db: Database)
    requires p.AsOfJoin? && BagHasTypes(Meaning(p.left, i, db), Types(SchemaOf(p.left)))
    requires BagHasTypes(Meaning(p.right, i, db), Types(SchemaOf(p.right)))
    requires Types(p.schema) == Types(SchemaOf(p.left)) + Types(SchemaOf(p.right))
    ensures BagHasTypes(Meaning(p, i, db), Types(p.schema))
  {
    var ls, rs := SchemaOf(p.left), SchemaOf(p.right);
    AsOfTyped(AsOfEligible(i, p.on, p.matchLeft, p.matchOp, p.matchRight, ls, rs),
              AsOfCloser(i, p.matchOp, p.matchRight, rs),
              Meaning(p.left, i, db), Meaning(p.right, i, db), Types(ls), Types(rs));
  }

  lemma FilterTyped(p: Row -> bool, m: Bag, types: seq<DataType>)
    requires BagHasTypes(m, types)
    ensures BagHasTypes(Filter(p, m), types)
  {
    WhenTyped(p, Itself(), m, types);
  }

  lemma ProjectionTyped(i: Interp, exprs: seq<Expr>, s: LogicalSchema, m: Bag, types: seq<DataType>)
    requires BagHasTypes(m, Types(s)) && |types| == |exprs|
    requires forall k :: 0 <= k < |exprs| ==> types[k] == ExprType(exprs[k], s)
    ensures BagHasTypes(Map(Evaluates(i, exprs, s), m), types)
  {
    forall r | r in m
      ensures HasTypes(EvalAll(i, exprs, s, r), types)
    {
      forall k | 0 <= k < |exprs|
        ensures Conforms(Eval(i, exprs[k], s, r), types[k])
      {
        EvalConforms(i, exprs[k], s, r);
      }
    }
    WhenTyped(Always(), Evaluates(i, exprs, s), m, types);
  }

  lemma SumTyped(bags: seq<Bag>, types: seq<DataType>)
    requires forall k :: 0 <= k < |bags| ==> BagHasTypes(bags[k], types)
    ensures BagHasTypes(Sum(bags), types)
  {
    forall r | r in Sum(bags)
      ensures HasTypes(r, types)
    {
      var k := SumMember(bags, r);
    }
  }
}
