/** The operator graph a query is lowered to, with the bag each node denotes.

    Whatever an operator definition checks beyond arity, names and key types (nullability,
    replayability, reserved names) is an arbitrary `Binder`. */
module Dataflow {
  import opened Bags
  import opened Options
  import opened Expressions
  import opened Relational
  import opened JoinConditions
  import opened Plans

  datatype AggregateCall =
    | CountAll
    | Count(arg: Expr)
    | SumOf(arg: Expr)
    | Avg(arg: Expr)
    | Min(arg: Expr)
    | Max(arg: Expr)

  datatype SelectField = SelectField(name: string, expression: Expr, nullable: bool, metadata: map<string, string>)

  datatype Definition =
    | ScanOp(source: nat, schema: Schema, columns: Option<seq<nat>>)
    | FilterOp(condition: Expr)
    | SelectOp(fields: seq<SelectField>, metadata: map<string, string>)
    | DistinctOp
    | EquiJoinOp(kind: EquiJoinKind, keys: seq<Key>, names: seq<string>, residual: Option<Expr>)
    | AsOfOp(backward: bool, allowExact: bool, equalities: seq<Key>, order: Key, names: seq<string>)
    | AggregateOp(groups: seq<(string, Expr)>, calls: seq<(string, AggregateCall)>)
    | UnionAllOp(count: nat)

  datatype OperationId = ScanId(index: nat) | TransformId(index: nat)

  datatype Node = Node(id: OperationId, definition: Definition, inputs: seq<nat>, schema: Schema)

  datatype Binder = Binder(admits: (Definition, seq<Schema>) -> bool, nullable: (Expr, Schema) -> bool)

  function InputCount(d: Definition): nat
  {
    match d
    case ScanOp(_, _, _) => 0
    case EquiJoinOp(_, _, _, _) => 2
    case AsOfOp(_, _, _, _, _) => 2
    case UnionAllOp(count) => count
    case _ => 1
  }

  function CallOutputType(call: AggregateCall, s: LogicalSchema): DataType
  {
    match call
    case CountAll => Int64
    case Count(_) => Int64
    case Avg(_) => Float(64)
    case _ => ExprType(call.arg, s)
  }

  /** The fields of a two-input operator under new names; `pad` marks ports padded with NULL. */
  function JoinedFields(s0: Schema, s1: Schema, names: seq<string>, pad0: bool, pad1: bool): (r: seq<Field>)
    requires |s0.fields| <= |names| <= |s0.fields| + |s1.fields|
    ensures |r| == |names|
  {
    seq(|names|, k requires 0 <= k < |names| =>
      if k < |s0.fields| then s0.fields[k].(name := names[k], nullable := s0.fields[k].nullable || pad0)
      else s1.fields[k - |s0.fields|].(name := names[k], nullable := s1.fields[k - |s0.fields|].nullable || pad1))
  }

  predicate KeyTypesAgree(keys: seq<Key>, s0: Schema, s1: Schema)
  {
    forall k :: 0 <= k < |keys| ==>
      && ExprType(keys[k].0, Unqualified(s0)) == ExprType(keys[k].1, Unqualified(s1))
      && SupportsKeyType(ExprType(keys[k].0, Unqualified(s0)))
  }

  function SelectSchema(fields: seq<SelectField>, metadata: map<string, string>, input: Schema): (r: Schema)
    ensures |r.fields| == |fields|
  {
    Schema(seq(|fields|, k requires 0 <= k < |fields| =>
      Field(fields[k].name, ExprType(fields[k].expression, Unqualified(input)), fields[k].nullable,
            fields[k].metadata)), metadata)
  }

  function AggregateSchema(b: Binder, groups: seq<(string, Expr)>,
    calls: seq<(string, AggregateCall)>, input: Schema): (r: Schema)
    ensures |r.fields| == |groups| + |calls|
  {
    Schema(seq(|groups|, k requires 0 <= k < |groups| =>
      Field(groups[k].0, ExprType(groups[k].1, Unqualified(input)), b.nullable(groups[k].1, input), map[]))
      + seq(|calls|, k requires 0 <= k < |calls| =>
      Field(calls[k].0, CallOutputType(calls[k].1, Unqualified(input)), !calls[k].1.CountAll? && !calls[k].1.Count?,
            map[])), map[])
  }

  function UncheckedSchema(b: Binder, d: Definition, inputs: seq<Schema>): Option<Schema>
    requires |inputs| == InputCount(d)
  {
    match d
    case ScanOp(_, schema, _) => Some(schema)
    case FilterOp(condition) => if ExprType(condition, Unqualified(inputs[0])) == Boolean then Some(inputs[0]) else None
    case SelectOp(fields, metadata) => Some(SelectSchema(fields, metadata, inputs[0]))
    case DistinctOp => Some(inputs[0])
    case EquiJoinOp(kind, keys, names, residual) =>
      if |names| == |inputs[0].fields| + (if kind.LeftOnly() then 0 else |inputs[1].fields|)
         && keys != [] && KeyTypesAgree(keys, inputs[0], inputs[1])
         && (residual.Some? ==> ExprType(residual.value, CandidateSchema(inputs[0], inputs[1])) == Boolean)
      then Some(Schema(JoinedFields(inputs[0], inputs[1], names, kind.Preserves(1), kind.Preserves(0)), map[]))
      else None
    case AsOfOp(_, _, equalities, order, names) =>
      if |names| == |inputs[0].fields| + |inputs[1].fields| && KeyTypesAgree(equalities + [order], inputs[0], inputs[1])
      then Some(Schema(JoinedFields(inputs[0], inputs[1], names, false, true), map[]))
      else None
    case AggregateOp(groups, calls) => if groups != [] then Some(AggregateSchema(b, groups, calls, inputs[0])) else None
    case UnionAllOp(count) =>
      if count > 0 && forall k :: 0 <= k < |inputs| ==> inputs[k] == inputs[0] then Some(inputs[0]) else None
  }

  /** The checked output schema of a definition, or `None` when it refuses its inputs. */
  function OutputSchema(b: Binder, d: Definition, inputs: seq<Schema>): (r: Option<Schema>)
    ensures r.Some? ==>
      UniqueNames(r.value) && |inputs| == InputCount(d) && forall k :: 0 <= k < |inputs| ==> UniqueNames(inputs[k])
    ensures r.Some? ==> UncheckedSchema(b, d, inputs) == r
  {
    if |inputs| == InputCount(d) && (forall k :: 0 <= k < |inputs| ==> UniqueNames(inputs[k])) then
      var output := UncheckedSchema(b, d, inputs);
      if output.Some? && UniqueNames(output.value) && b.admits(d, inputs) then output else None
    else None
  }

  /** The pairs an equality join keeps: all keys non-NULL and equal, and the residual TRUE. */
  ghost function PhysicalOn(i: Interp, keys: seq<Key>, residual: Option<Expr>, s0: Schema, s1: Schema): Condition
  {
    (x, y) =>
      && KeysMatch(i, keys, Unqualified(s0), Unqualified(s1), x, y)
      && (residual.Some? ==> IsTrue(Eval(i, residual.value, CandidateSchema(s0, s1), x + y)))
  }

  ghost predicate InOrder(i: Interp, backward: bool, allowExact: bool, l: Value, r: Value)
  {
    l.Val? && r.Val? && ((if backward then i.less(r, l) else i.less(l, r)) || (allowExact && Same(i, l, r)))
  }

  ghost function PhysicalEligible(i: Interp, backward: bool, allowExact: bool, equalities: seq<Key>, order: Key,
                                  s0: Schema, s1: Schema): Condition
  {
    (x, y) =>
      && KeysMatch(i, equalities, Unqualified(s0), Unqualified(s1), x, y)
      && InOrder(i, backward, allowExact, Eval(i, order.0, Unqualified(s0), x), Eval(i, order.1, Unqualified(s1), y))
  }

  ghost function PhysicalCloser(i: Interp, backward: bool, order: Key, s1: Schema): (Row, Row) -> bool
  {
    (a, b) =>
      var x, y := Eval(i, order.1, Unqualified(s1), a), Eval(i, order.1, Unqualified(s1), b);
      if backward then i.less(y, x) else i.less(x, y)
  }

  function CallName(call: AggregateCall): AggregateName
  {
    match call
    case CountAll => CountFn
    case Count(_) => CountFn
    case SumOf(_) => SumFn
    case Avg(_) => AvgFn
    case Min(_) => MinFn
    case Max(_) => MaxFn
  }

  ghost function PhysicalSummary(i: Interp, call: AggregateCall, s: LogicalSchema, g: Bag): Value
  {
    if call.CountAll? then Val(Int64, |g|)
    else Summary(i, CallName(call), Arguments(EvaluatesOne(i, call.arg, s), g), ExprType(call.arg, s))
  }

  ghost function PhysicalSummaries(i: Interp, calls: seq<(string, AggregateCall)>, s: LogicalSchema): Bag -> Row
  {
    g => seq(|calls|, k requires 0 <= k < |calls| => PhysicalSummary(i, calls[k].1, s, g))
  }

  function FieldExpressions(fields: seq<SelectField>): (r: seq<Expr>)
    ensures |r| == |fields|
  {
    seq(|fields|, k requires 0 <= k < |fields| => fields[k].expression)
  }

  function GroupExpressions(groups: seq<(string, Expr)>): (r: seq<Expr>)
    ensures |r| == |groups|
  {
    seq(|groups|, k requires 0 <= k < |groups| => groups[k].1)
  }

  ghost function Apply(i: Interp, d: Definition, schemas: seq<Schema>, bags: seq<Bag>, db: Database): Bag
    requires |schemas| == |bags| == InputCount(d)
  {
    match d
    case ScanOp(source, _, columns) =>
      if source >= |db| then multiset{}
      else if columns.None? then db[source]
      else Map(Select(columns.value), db[source])
    case FilterOp(condition) => Filter(Satisfies(i, condition, Unqualified(schemas[0])), bags[0])
    case SelectOp(fields, _) => Map(Evaluates(i, FieldExpressions(fields), Unqualified(schemas[0])), bags[0])
    case DistinctOp => Distinct(bags[0])
    case EquiJoinOp(kind, keys, _, residual) =>
      EquiJoin(kind, PhysicalOn(i, keys, residual, schemas[0], schemas[1]), bags[0], bags[1], |schemas[0].fields|,
               |schemas[1].fields|)
    case AsOfOp(backward, allowExact, equalities, order, _) =>
      AsOf(PhysicalEligible(i, backward, allowExact, equalities, order, schemas[0], schemas[1]),
           PhysicalCloser(i, backward, order, schemas[1]), bags[0], bags[1], |schemas[1].fields|)
    case AggregateOp(groups, calls) =>
      GroupBy(Evaluates(i, GroupExpressions(groups), Unqualified(schemas[0])),
              PhysicalSummaries(i, calls, Unqualified(schemas[0])), bags[0])
    case UnionAllOp(_) => Sum(bags)
  }

  predicate Connected(nodes: seq<Node>, n: nat)
    requires n < |nodes|
  {
    && |nodes[n].inputs| == InputCount(nodes[n].definition)
    && forall k :: 0 <= k < |nodes[n].inputs| ==> nodes[n].inputs[k] < n
  }

  ghost function InputSchemas(nodes: seq<Node>, inputs: seq<nat>): (r: seq<Schema>)
    requires forall k :: 0 <= k < |inputs| ==> inputs[k] < |nodes|
    ensures |r| == |inputs|
  {
    seq(|inputs|, k requires 0 <= k < |inputs| => nodes[inputs[k]].schema)
  }

  /** The bag a node of the graph denotes. */
  ghost function Evaluate(nodes: seq<Node>, n: nat, i: Interp, db: Database): Bag
    requires n < |nodes|
    decreases n
  {
    if Connected(nodes, n) then
      var inputs := nodes[n].inputs;
      Apply(i, nodes[n].definition, InputSchemas(nodes, inputs),
            seq(|inputs|, k requires 0 <= k < |inputs| => Evaluate(nodes, inputs[k], i, db)), db)
    else multiset{}
  }

  ghost function InputBags(nodes: seq<Node>, inputs: seq<nat>, i: Interp, db: Database): (r: seq<Bag>)
    requires forall k :: 0 <= k < |inputs| ==> inputs[k] < |nodes|
    ensures |r| == |inputs|
  {
    seq(|inputs|, k requires 0 <= k < |inputs| => Evaluate(nodes, inputs[k], i, db))
  }

  lemma EvaluateApply(nodes: seq<Node>, n: nat, i: Interp, db: Database)
    requires n < |nodes| && Connected(nodes, n)
    ensures Evaluate(nodes, n, i, db)
         == Apply(i, nodes[n].definition, InputSchemas(nodes, nodes[n].inputs),
                  InputBags(nodes, nodes[n].inputs, i, db), db)
  {
    var inputs := nodes[n].inputs;
    assert seq(|inputs|, k requires 0 <= k < |inputs| => Evaluate(nodes, inputs[k], i, db))
        == InputBags(nodes, inputs, i, db);
  }

  /** Declaring further operators never changes what a node denotes. */
  lemma {:induction false} EvaluatePrefix(nodes: seq<Node>, nodes': seq<Node>, n: nat, i: Interp, db: Database)
    requires nodes <= nodes' && n < |nodes|
    ensures Evaluate(nodes, n, i, db) == Evaluate(nodes', n, i, db)
    decreases n
  {
    if Connected(nodes, n) {
      var inputs := nodes[n].inputs;
      forall k | 0 <= k < |inputs|
        ensures Evaluate(nodes, inputs[k], i, db) == Evaluate(nodes', inputs[k], i, db)
      {
        EvaluatePrefix(nodes, nodes', inputs[k], i, db);
      }
      EvaluateApply(nodes, n, i, db);
      EvaluateApply(nodes', n, i, db);
      assert InputBags(nodes, inputs, i, db) == InputBags(nodes', inputs, i, db);
      assert InputSchemas(nodes, inputs) == InputSchemas(nodes', inputs);
    }
  }
}
