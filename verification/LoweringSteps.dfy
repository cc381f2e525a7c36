/** Each operator that lowering declares denotes the plan node it was lowered from. */
module LoweringSteps {
  import opened Bags
  import opened Options
  import opened Expressions
  import opened Relational
  import opened JoinConditions
  import opened Plans
  import opened Dataflow

  datatype LoweredRelation = LoweredRelation(node: nat, schema: Schema)

  ghost predicate IsRelation(nodes: seq<Node>, r: LoweredRelation)
  {
    r.node < |nodes| && nodes[r.node].schema == r.schema && UniqueNames(r.schema)
  }

  /** For every interpretation and every content of the sources, the node denotes the plan's meaning. */
  ghost predicate Denotes(nodes: seq<Node>, n: nat, p: Plan, sources: seq<Schema>)
    requires n < |nodes|
  {
    forall i: Interp, db: Database :: DatabaseConforms(db, sources) ==> Evaluate(nodes, n, i, db) == Meaning(p, i, db)
  }

  /** The induction hypothesis of lowering: unique physical names, the plan's types position by
      position, and the plan's meaning. */
  ghost predicate Implements(nodes: seq<Node>, r: LoweredRelation, p: Plan, sources: seq<Schema>)
  {
    IsRelation(nodes, r) && PhysicalTypes(r.schema) == Types(SchemaOf(p)) && Denotes(nodes, r.node, p, sources)
  }

  lemma ImplementsPrefix(nodes: seq<Node>, nodes': seq<Node>, r: LoweredRelation, p: Plan, sources: seq<Schema>)
    requires Implements(nodes, r, p, sources) && nodes <= nodes'
    ensures Implements(nodes', r, p, sources)
  {
    forall i: Interp, db: Database | DatabaseConforms(db, sources)
      ensures Evaluate(nodes', r.node, i, db) == Meaning(p, i, db)
    {
      EvaluatePrefix(nodes, nodes', r.node, i, db);
    }
  }

  function NodesOf(inputs: seq<LoweredRelation>): (r: seq<nat>)
    ensures |r| == |inputs|
  {
    seq(|inputs|, k requires 0 <= k < |inputs| => inputs[k].node)
  }

  function SchemasOf(inputs: seq<LoweredRelation>): (r: seq<Schema>)
    ensures |r| == |inputs|
  {
    seq(|inputs|, k requires 0 <= k < |inputs| => inputs[k].schema)
  }

  ghost function BagsOf(nodes: seq<Node>, inputs: seq<LoweredRelation>, i: Interp, db: Database): (r: seq<Bag>)
    requires forall k :: 0 <= k < |inputs| ==> IsRelation(nodes, inputs[k])
    ensures |r| == |inputs|
  {
    seq(|inputs|, k requires 0 <= k < |inputs| && IsRelation(nodes, inputs[k]) =>
      Evaluate(nodes, inputs[k].node, i, db))
  }

  /** `nodes'` declares one more operator over `inputs`, and `r` names it. */
  ghost predicate Declares(b: Binder, nodes: seq<Node>, inputs: seq<LoweredRelation>, d: Definition, nodes': seq<Node>,
                           r: LoweredRelation)
  {
    && (forall k :: 0 <= k < |inputs| ==> IsRelation(nodes, inputs[k]))
    && OutputSchema(b, d, SchemasOf(inputs)) == Some(r.schema)
    && r.node == |nodes| && |nodes'| == |nodes| + 1 && nodes <= nodes'
    && nodes'[|nodes|].definition == d && nodes'[|nodes|].inputs == NodesOf(inputs)
    && nodes'[|nodes|].schema == r.schema
  }

  lemma DeclaredEvaluate(b: Binder, nodes: seq<Node>, inputs: seq<LoweredRelation>, d: Definition, nodes': seq<Node>,
                         r: LoweredRelation, i: Interp, db: Database)
    requires Declares(b, nodes, inputs, d, nodes', r)
    ensures |inputs| == InputCount(d)
    ensures Evaluate(nodes', r.node, i, db) == Apply(i, d, SchemasOf(inputs), BagsOf(nodes, inputs, i, db), db)
  {
    var ns := NodesOf(inputs);
    forall k | 0 <= k < |inputs|
      ensures Evaluate(nodes', ns[k], i, db) == Evaluate(nodes, inputs[k].node, i, db)
      ensures nodes'[ns[k]].schema == inputs[k].schema
    {
      assert IsRelation(nodes, inputs[k]);
      EvaluatePrefix(nodes, nodes', ns[k], i, db);
    }
    assert Connected(nodes', |nodes|);
    EvaluateApply(nodes', |nodes|, i, db);
    assert InputSchemas(nodes', ns) == SchemasOf(inputs);
    assert InputBags(nodes', ns, i, db) == BagsOf(nodes, inputs, i, db);
  }

  /** The schema part of a declaration. */
  lemma DeclaredSchema(b: Binder, nodes: seq<Node>, inputs: seq<LoweredRelation>, d: Definition, nodes': seq<Node>,
                       r: LoweredRelation)
    requires Declares(b, nodes, inputs, d, nodes', r)
    ensures |inputs| == InputCount(d) && UncheckedSchema(b, d, SchemasOf(inputs)) == Some(r.schema)
    ensures IsRelation(nodes', r)
  {
  }

  lemma UnaryInputs(x: LoweredRelation)
    ensures SchemasOf([x]) == [x.schema]
  {
  }

  lemma BinaryInputs(x: LoweredRelation, y: LoweredRelation)
    ensures SchemasOf([x, y]) == [x.schema, y.schema]
  {
  }

  /** A one-input operator. */
  lemma DeclaredUnary(b: Binder, nodes: seq<Node>, x: LoweredRelation, d: Definition, nodes': seq<Node>,
                      r: LoweredRelation, i: Interp, db: Database)
    requires Declares(b, nodes, [x], d, nodes', r) && InputCount(d) == 1 && IsRelation(nodes, x)
    ensures Evaluate(nodes', r.node, i, db) == Apply(i, d, [x.schema], [Evaluate(nodes, x.node, i, db)], db)
  {
    DeclaredEvaluate(b, nodes, [x], d, nodes', r, i, db);
    UnaryInputs(x);
    assert BagsOf(nodes, [x], i, db) == [Evaluate(nodes, x.node, i, db)];
  }

  lemma BinaryBags(nodes: seq<Node>, x: LoweredRelation, y: LoweredRelation, i: Interp, db: Database)
    requires IsRelation(nodes, x) && IsRelation(nodes, y)
    ensures BagsOf(nodes, [x, y], i, db) == [Evaluate(nodes, x.node, i, db), Evaluate(nodes, y.node, i, db)]
  {
  }

  /** A two-input operator. */
  lemma DeclaredBinary(b: Binder, nodes: seq<Node>, x: LoweredRelation, y: LoweredRelation, d: Definition,
                       nodes': seq<Node>, r: LoweredRelation, i: Interp, db: Database)
    requires Declares(b, nodes, [x, y], d, nodes', r) && InputCount(d) == 2 && IsRelation(nodes, x)
    requires IsRelation(nodes, y)
    ensures Evaluate(nodes', r.node, i, db)
        == Apply(i, d, [x.schema, y.schema], [Evaluate(nodes, x.node, i, db), Evaluate(nodes, y.node, i, db)], db)
  {
    DeclaredEvaluate(b, nodes, [x, y], d, nodes', r, i, db);
    BinaryInputs(x, y);
    BinaryBags(nodes, x, y, i, db);
  }

  // ---- Filter -------------------------------------------------------------

  lemma FilterSame(i: Interp, e: Expr, logical: LogicalSchema, physical: Schema, m: Bag)
    requires AllColumns(e, ResolvesIn(logical)) && UniqueNames(physical) && RewriteColumns(e, logical, physical).Some?
    ensures Filter(Satisfies(i, RewriteColumns(e, logical, physical).value, Unqualified(physical)), m)
        == Filter(Satisfies(i, e, logical), m)
  {
    var e' := RewriteColumns(e, logical, physical).value;
    forall r | r in m
      ensures Satisfies(i, e', Unqualified(physical))(r) == Satisfies(i, e, logical)(r)
    {
      RewriteColumnsSound(i, e, logical, physical, r);
    }
    WhenCong(Satisfies(i, e', Unqualified(physical)), Itself(), Satisfies(i, e, logical), Itself(), m);
  }

  lemma FilterStep(b: Binder, nodes: seq<Node>, input: LoweredRelation, p: Plan, sources: seq<Schema>,
                   nodes': seq<Node>, r: LoweredRelation)
    requires p.Filtering? && WellFormed(p, sources) && Implements(nodes, input, p.input, sources)
    requires RewriteColumns(p.condition, SchemaOf(p.input), input.schema).Some?
    requires Declares(b, nodes, [input], FilterOp(RewriteColumns(p.condition, SchemaOf(p.input), input.schema).value),
                      nodes', r)
    ensures Implements(nodes', r, p, sources)
  {
    var d := FilterOp(RewriteColumns(p.condition, SchemaOf(p.input), input.schema).value);
    DeclaredSchema(b, nodes, [input], d, nodes', r);
    UnaryInputs(input);
    forall i: Interp, db: Database | DatabaseConforms(db, sources)
      ensures Evaluate(nodes', r.node, i, db) == Meaning(p, i, db)
    {
      DeclaredUnary(b, nodes, input, d, nodes', r, i, db);
      FilterSame(i, p.condition, SchemaOf(p.input), input.schema, Evaluate(nodes, input.node, i, db));
    }
  }

  // ---- Projection ---------------------------------------------------------

  function Unalias(e: Expr): Expr
  {
    if e.Alias? then e.expr else e
  }

  /** Expressions rewritten one by one, or nothing when one of them cannot be. */
  function RewriteAll(es: seq<Expr>, logical: LogicalSchema, physical: Schema): (r: Option<seq<Expr>>)
    ensures r.Some? ==> |r.value| == |es|
  {
    if forall k :: 0 <= k < |es| ==> RewriteColumns(es[k], logical, physical).Some?
    then Some(seq(|es|, k requires 0 <= k < |es|
      && RewriteColumns(es[k], logical, physical).Some? =>
      RewriteColumns(es[k], logical, physical).value))
    else None
  }

  lemma RewriteAllTotal(es: seq<Expr>, logical: LogicalSchema, physical: Schema)
    requires |logical.fields| == |physical.fields|
    requires forall k :: 0 <= k < |es| ==> AllColumns(es[k], ResolvesIn(logical))
    ensures RewriteAll(es, logical, physical).Some?
  {
    forall k | 0 <= k < |es|
      ensures RewriteColumns(es[k], logical, physical).Some?
    {
      RewriteColumnsTotal(es[k], logical, physical);
    }
  }

  lemma EvalAllSame(i: Interp, es: seq<Expr>, logical: LogicalSchema, physical: Schema, row: Row)
    requires forall k :: 0 <= k < |es| ==> AllColumns(es[k], ResolvesIn(logical))
    requires UniqueNames(physical) && RewriteAll(es, logical, physical).Some?
    ensures EvalAll(i, RewriteAll(es, logical, physical).value, Unqualified(physical), row)
        == EvalAll(i, es, logical, row)
  {
    forall k | 0 <= k < |es|
      ensures Eval(i, RewriteAll(es, logical, physical).value[k], Unqualified(physical), row)
          == Eval(i, es[k], logical, row)
    {
      RewriteColumnsSound(i, es[k], logical, physical, row);
    }
  }

  lemma MapSame(i: Interp, es: seq<Expr>, logical: LogicalSchema, physical: Schema, m: Bag)
    requires forall k :: 0 <= k < |es| ==> AllColumns(es[k], ResolvesIn(logical))
    requires UniqueNames(physical) && RewriteAll(es, logical, physical).Some?
    ensures Map(Evaluates(i, RewriteAll(es, logical, physical).value, Unqualified(physical)), m)
        == Map(Evaluates(i, es, logical), m)
  {
    var es' := RewriteAll(es, logical, physical).value;
    forall r | r in m
      ensures Evaluates(i, es', Unqualified(physical))(r) == Evaluates(i, es, logical)(r)
    {
      EvalAllSame(i, es, logical, physical, r);
    }
    WhenCong(Always(), Evaluates(i, es', Unqualified(physical)), Always(), Evaluates(i, es, logical), m);
  }

  function UnaliasAll(es: seq<Expr>): (r: seq<Expr>)
    ensures |r| == |es|
  {
    seq(|es|, k requires 0 <= k < |es| => Unalias(es[k]))
  }

  lemma MapUnalias(i: Interp, es: seq<Expr>, s: LogicalSchema, m: Bag)
    ensures Map(Evaluates(i, UnaliasAll(es), s), m) == Map(Evaluates(i, es, s), m)
  {
    forall r | r in m
      ensures Evaluates(i, UnaliasAll(es), s)(r) == Evaluates(i, es, s)(r)
    {
      assert EvalAll(i, UnaliasAll(es), s, r) == EvalAll(i, es, s, r);
    }
    WhenCong(Always(), Evaluates(i, UnaliasAll(es), s), Always(), Evaluates(i, es, s), m);
  }

  /** One select field per output column, under the plan's names. */
  function SelectFields(es: seq<Expr>, target: Schema): (r: seq<SelectField>)
    requires |es| == |target.fields|
    ensures |r| == |es|
  {
    seq(|es|, k requires 0 <= k < |es| => SelectField(target.fields[k].name, es[k], target.fields[k].nullable,
                                                      target.fields[k].metadata))
  }

  lemma SelectTypes(es: seq<Expr>, target: Schema, input: Schema)
    requires |es| == |target.fields|
    ensures FieldExpressions(SelectFields(es, target)) == es
    ensures forall k :: 0 <= k < |es| ==>
        SelectSchema(SelectFields(es, target), target.metadata, input).fields[k].name == target.fields[k].name
    ensures forall k :: 0 <= k < |es| ==>
        PhysicalTypes(SelectSchema(SelectFields(es, target), target.metadata, input))[k]
          == ExprType(es[k], Unqualified(input))
  {
  }

  lemma RewrittenTypes(es: seq<Expr>, logical: LogicalSchema, physical: Schema)
    requires forall k :: 0 <= k < |es| ==> AllColumns(es[k], ResolvesIn(logical))
    requires UniqueNames(physical) && Types(logical) == PhysicalTypes(physical)
    requires RewriteAll(es, logical, physical).Some?
    ensures forall k :: 0 <= k < |es| ==>
        ExprType(RewriteAll(es, logical, physical).value[k], Unqualified(physical)) == ExprType(es[k], logical)
  {
    forall k | 0 <= k < |es|
      ensures ExprType(RewriteAll(es, logical, physical).value[k], Unqualified(physical)) == ExprType(es[k], logical)
    {
      RewriteColumnsType(es[k], logical, physical);
    }
  }

  lemma ProjectionStep(b: Binder, nodes: seq<Node>, input: LoweredRelation, p: Plan, sources: seq<Schema>,
                       es: seq<Expr>, nodes': seq<Node>, r: LoweredRelation)
    requires p.Projection? && WellFormed(p, sources) && Implements(nodes, input, p.input, sources)
    requires RewriteAll(UnaliasAll(p.exprs), SchemaOf(p.input), input.schema) == Some(es)
    requires Declares(b, nodes, [input], SelectOp(SelectFields(es, AsArrow(p.schema)), p.schema.metadata), nodes', r)
    ensures Implements(nodes', r, p, sources)
  {
    var target := AsArrow(p.schema);
    var d := SelectOp(SelectFields(es, target), p.schema.metadata);
    var logical := SchemaOf(p.input);
    DeclaredSchema(b, nodes, [input], d, nodes', r);
    UnaryInputs(input);
    assert forall k :: 0 <= k < |p.exprs| ==> AllColumns(UnaliasAll(p.exprs)[k], ResolvesIn(logical));
    SelectTypes(es, target, input.schema);
    RewrittenTypes(UnaliasAll(p.exprs), logical, input.schema);
    assert forall k :: 0 <= k < |p.exprs| ==>
        ExprType(UnaliasAll(p.exprs)[k], logical) == ExprType(p.exprs[k], logical);
    assert PhysicalTypes(r.schema) == Types(p.schema);
    forall i: Interp, db: Database | DatabaseConforms(db, sources)
      ensures Evaluate(nodes', r.node, i, db) == Meaning(p, i, db)
    {
      DeclaredUnary(b, nodes, input, d, nodes', r, i, db);
      MapSame(i, UnaliasAll(p.exprs), logical, input.schema, Evaluate(nodes, input.node, i, db));
      MapUnalias(i, p.exprs, logical, Evaluate(nodes, input.node, i, db));
    }
  }

  // ---- Positional projection ----------------------------------------------

  /** The columns of `input` at `positions`. */
  function ColumnsAt(input: Schema, positions: seq<nat>): (r: seq<Expr>)
    requires forall k :: 0 <= k < |positions| ==> positions[k] < |input.fields|
    ensures |r| == |positions|
  {
    seq(|positions|, k requires 0 <= k < |positions| => Column(None, input.fields[positions[k]].name))
  }

  lemma ColumnsAtSelect(i: Interp, input: Schema, positions: seq<nat>, m: Bag)
    requires UniqueNames(input) && AllLength(m, |input.fields|)
    requires forall k :: 0 <= k < |positions| ==> positions[k] < |input.fields|
    ensures Map(Evaluates(i, ColumnsAt(input, positions), Unqualified(input)), m) == Map(Select(positions), m)
  {
    forall r | r in m
      ensures Evaluates(i, ColumnsAt(input, positions), Unqualified(input))(r) == Select(positions)(r)
    {
      forall k | 0 <= k < |positions|
        ensures Eval(i, ColumnsAt(input, positions)[k], Unqualified(input), r) == r[positions[k]]
      {
        ResolveUnique(input, positions[k]);
      }
      assert EvalAll(i, ColumnsAt(input, positions), Unqualified(input), r) == Select(positions)(r);
    }
    WhenCong(Always(), Evaluates(i, ColumnsAt(input, positions), Unqualified(input)), Always(), Select(positions), m);
  }

  lemma IdentitySelect(positions: seq<nat>, m: Bag)
    requires positions == Positions(|positions|) && AllLength(m, |positions|)
    ensures Map(Select(positions), m) == m
  {
    forall r | r in m
      ensures When(Always(), Select(positions))(r) == multiset{r}
    {
      assert Select(positions)(r) == r;
    }
    FlatMapIdentity(When(Always(), Select(positions)), m);
  }

  lemma ColumnTypes(input: Schema, positions: seq<nat>)
    requires UniqueNames(input) && forall k :: 0 <= k < |positions| ==> positions[k] < |input.fields|
    ensures forall k :: 0 <= k < |positions| ==>
        ExprType(ColumnsAt(input, positions)[k], Unqualified(input)) == PhysicalTypes(input)[positions[k]]
  {
    forall k | 0 <= k < |positions|
      ensures ExprType(ColumnsAt(input, positions)[k], Unqualified(input)) == PhysicalTypes(input)[positions[k]]
    {
      ResolveUnique(input, positions[k]);
    }
  }

  /** `r` selects the columns of `input` at `positions` under the names of `target`. */
  ghost predicate Projects(nodes: seq<Node>, input: LoweredRelation, positions: seq<nat>, target: Schema,
                           nodes': seq<Node>, r: LoweredRelation)
  {
    && IsRelation(nodes, input) && IsRelation(nodes', r) && nodes <= nodes'
    && |positions| == |target.fields| == |r.schema.fields|
    && (forall k :: 0 <= k < |positions| ==> positions[k] < |input.schema.fields|)
    && (forall k :: 0 <= k < |positions| ==> r.schema.fields[k].name == target.fields[k].name)
    && (forall k :: 0 <= k < |positions| ==> PhysicalTypes(r.schema)[k] == PhysicalTypes(input.schema)[positions[k]])
    && (forall i: Interp, db: Database :: AllLength(Evaluate(nodes, input.node, i, db), |input.schema.fields|) ==>
          Evaluate(nodes', r.node, i, db) == Map(Select(positions), Evaluate(nodes, input.node, i, db)))
  }

  /** The columns selected have the target's types already. */
  ghost predicate TypesFit(input: Schema, positions: seq<nat>, target: Schema)
  {
    && |positions| == |target.fields|
    && forall k :: 0 <= k < |positions| ==>
         positions[k] < |input.fields| && PhysicalTypes(input)[positions[k]] == target.fields[k].dtype
  }

  /** What is selected under the target's names, nullability and metadata is the target, given its types. */
  lemma SelectedSchema(input: Schema, positions: seq<nat>, target: Schema)
    requires UniqueNames(input) && TypesFit(input, positions, target)
    ensures SelectSchema(SelectFields(ColumnsAt(input, positions), target), target.metadata, input) == target
  {
    ColumnTypes(input, positions);
    var es := ColumnsAt(input, positions);
    var output := SelectSchema(SelectFields(es, target), target.metadata, input);
    forall k | 0 <= k < |positions|
      ensures output.fields[k] == target.fields[k]
    {
      assert ExprType(es[k], Unqualified(input)) == PhysicalTypes(input)[positions[k]];
    }
  }

  lemma ElidedStep(nodes: seq<Node>, input: LoweredRelation, positions: seq<nat>, target: Schema)
    requires IsRelation(nodes, input) && input.schema == target && |positions| == |target.fields|
    requires positions == Positions(|positions|)
    ensures Projects(nodes, input, positions, target, nodes, input)
  {
    forall i: Interp, db: Database | AllLength(Evaluate(nodes, input.node, i, db), |input.schema.fields|)
      ensures Evaluate(nodes, input.node, i, db) == Map(Select(positions), Evaluate(nodes, input.node, i, db))
    {
      IdentitySelect(positions, Evaluate(nodes, input.node, i, db));
    }
  }

  lemma SelectedStep(b: Binder, nodes: seq<Node>, input: LoweredRelation, positions: seq<nat>, target: Schema,
                     nodes': seq<Node>, r: LoweredRelation)
    requires |positions| == |target.fields| && forall k :: 0 <= k < |positions| ==> positions[k] < |input.schema.fields|
    requires IsRelation(nodes, input)
    requires Declares(b, nodes, [input],
                      SelectOp(SelectFields(ColumnsAt(input.schema, positions), target), target.metadata), nodes', r)
    ensures Projects(nodes, input, positions, target, nodes', r)
  {
    var es := ColumnsAt(input.schema, positions);
    var d := SelectOp(SelectFields(es, target), target.metadata);
    DeclaredSchema(b, nodes, [input], d, nodes', r);
    UnaryInputs(input);
    SelectTypes(es, target, input.schema);
    ColumnTypes(input.schema, positions);
    forall i: Interp, db: Database | AllLength(Evaluate(nodes, input.node, i, db), |input.schema.fields|)
      ensures Evaluate(nodes', r.node, i, db) == Map(Select(positions), Evaluate(nodes, input.node, i, db))
    {
      DeclaredUnary(b, nodes, input, d, nodes', r, i, db);
      ColumnsAtSelect(i, input.schema, positions, Evaluate(nodes, input.node, i, db));
    }
  }
}
