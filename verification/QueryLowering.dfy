/** Lowering a logical plan to the operator graph, one declaration at a time. */
module QueryLowering {
  import opened Options
  import opened Expressions
  import opened Relational
  import opened JoinConditions
  import opened Plans
  import opened Dataflow
  import opened LoweringSteps
  import opened JoinSteps
  import opened OperatorSteps
  import opened SharedScans
  import opened LoweringState
  import opened Bindings

  lemma UsedByInput(p: Plan, scans: seq<ScanBinding>)
    requires !p.TableScan? && forall k :: 0 <= k < |Inputs(p)| ==> UsedDeclared(Inputs(p)[k], scans)
    ensures UsedDeclared(p, scans)
  {
    forall s | 0 <= s < |scans| && Uses(p, s)
      ensures scans[s].relation.Some?
    {
      var k :| 0 <= k < |Inputs(p)| && Uses(Inputs(p)[k], s);
      assert UsedDeclared(Inputs(p)[k], scans);
    }
  }

  /** A plan node whose inputs are lowered and which is itself declared is done. */
  lemma NodeDone(p: Plan, scans: seq<ScanBinding>)
    requires !p.TableScan? && SupportedHere(p) && BindsHere(p)
    requires forall k :: 0 <= k < |Inputs(p)| ==> Accepted(Inputs(p)[k]) && UsedDeclared(Inputs(p)[k], scans)
    ensures Accepted(p) && UsedDeclared(p, scans)
  {
    UsedByInput(p, scans);
    AcceptedBy(p);
  }

  lemma UnaryDone(p: Plan, input: Plan, scans: seq<ScanBinding>)
    requires Inputs(p) == [input] && SupportedHere(p) && BindsHere(p)
    requires Accepted(input) && UsedDeclared(input, scans)
    ensures Accepted(p) && UsedDeclared(p, scans)
  {
    NodeDone(p, scans);
  }

  lemma BinaryDone(p: Plan, left: Plan, right: Plan, scans: seq<ScanBinding>)
    requires Inputs(p) == [left, right] && SupportedHere(p) && BindsHere(p)
    requires Accepted(left) && UsedDeclared(left, scans) && Accepted(right) && UsedDeclared(right, scans)
    ensures Accepted(p) && UsedDeclared(p, scans)
  {
    NodeDone(p, scans);
  }

  lemma UsedSame(p: Plan, a: seq<ScanBinding>, b: seq<ScanBinding>)
    requires UsedDeclared(p, a) && SameProjections(a, b)
    ensures UsedDeclared(p, b)
  {
  }

  lemma SameTransitive(a: seq<ScanBinding>, b: seq<ScanBinding>, c: seq<ScanBinding>)
    requires SameProjections(a, b) && SameProjections(b, c)
    ensures SameProjections(a, c)
  {
  }

  /** Once a source's shared relation is recorded, all bindings are in order again. */
  lemma ShareDone(nodes0: seq<Node>, scans: seq<ScanBinding>, sources: seq<Schema>, s: nat, d: Definition,
                  schema: Schema, nodes2: seq<Node>, shared: LoweredRelation)
    requires BindingsOk(nodes0, scans, sources) && DeclaredOnce(nodes0, scans) && s < |scans| && scans[s].relation.None?
    requires nodes0 <= nodes2 && d.ScanOp? && d.source == s
    requires forall t :: ScanCount(nodes2, t) == ScanCount(nodes0 + [Node(ScanId(s), d, [], schema)], t)
    requires Shares(nodes2, shared, s, scans[s].projection, sources)
    ensures var scans' := scans[s := ScanBinding(None, scans[s].projection, Some(shared))];
      BindingsOk(nodes2, scans', sources) && DeclaredOnce(nodes2, scans') && SameProjections(scans, scans')
  {
    var scans' := scans[s := ScanBinding(None, scans[s].projection, Some(shared))];
    BindingsPrefix(nodes0, nodes2, scans, sources);
    forall t | 0 <= t < |scans|
      ensures BindingOk(nodes2, scans'[t], t, sources)
      ensures ScanCount(nodes2, t) == if scans'[t].relation.Some? then 1 else 0
    {
      assert BindingOk(nodes2, scans[t], t, sources);
      ScanCountAppend(nodes0, Node(ScanId(s), d, [], schema), t);
    }
  }

  class Lowerer {
    const binder: Binder
    const sources: seq<Schema>
    var nodes: seq<Node>
    var nextTransform: nat
    var scans: seq<ScanBinding>

    ghost predicate Valid()
      reads this
    {
      GraphOk(nodes, nextTransform) && BindingsOk(nodes, scans, sources) && DeclaredOnce(nodes, scans)
    }

    /** The outcome of lowering `p` from the given earlier state. An internal inconsistency is never
        reported, only a plan outside the supported set is called unsupported, and only the factory
        or a broken condition on names or types refuses a plan. */
    ghost predicate Lowered(nodes0: seq<Node>, scans0: seq<ScanBinding>, p: Plan, r: Result<LoweredRelation>)
      reads this
    {
      && (r.Ok? ==> Valid() && nodes0 <= nodes && SameProjections(scans0, scans)
                    && Implements(nodes, r.value, p, sources) && Accepted(p) && UsedDeclared(p, scans))
      && (r.Err? ==> Excused(binder, r.error, p))
    }

    /** The outcome of declaring the operator of `p` over inputs that are lowered already. */
    ghost predicate Declared(nodes0: seq<Node>, p: Plan, r: Result<LoweredRelation>)
      reads this
    {
      && (r.Ok? ==> Valid() && nodes0 <= nodes && Implements(nodes, r.value, p, sources)
                    && SupportedHere(p) && BindsHere(p))
      && (r.Err? ==> ExcusedHere(binder, r.error, p))
    }

    constructor (binder: Binder, sources: seq<Schema>, definitions: seq<(Definition, seq<nat>)>)
      requires |definitions| == |sources|
      requires forall s :: 0 <= s < |sources| ==> Given(definitions[s], s, sources[s])
      ensures Valid() && nodes == [] && this.sources == sources && this.binder == binder
      ensures |scans| == |sources| && forall s :: 0 <= s < |sources| ==> scans[s].projection == definitions[s].1
    {
      this.binder := binder;
      this.sources := sources;
      nodes := [];
      nextTransform := 0;
      scans := seq(|definitions|, s requires 0 <= s < |definitions| =>
        ScanBinding(Some(definitions[s].0), definitions[s].1, None));
    }

    method AddTransform(inputs: seq<LoweredRelation>, d: Definition) returns (r: Result<LoweredRelation>)
      requires GraphOk(nodes, nextTransform) && !d.ScanOp?
      requires forall k :: 0 <= k < |inputs| ==> IsRelation(nodes, inputs[k])
      modifies this`nodes, this`nextTransform
      ensures r.Ok? <==> OutputSchema(binder, d, SchemasOf(inputs)).Some?
      ensures r.Ok? ==> GraphOk(nodes, nextTransform) && Declares(binder, old(nodes), inputs, d, nodes, r.value)
      ensures r.Ok? ==> forall s :: ScanCount(nodes, s) == ScanCount(old(nodes), s)
      ensures r.Ok? && old(Valid()) ==> Valid()
      ensures r.Err? ==> r.error.Rejected?
    {
      var schema := OutputSchema(binder, d, SchemasOf(inputs));
      if schema.None? {
        return Err(Rejected);
      }
      var node := Node(TransformId(nextTransform), d, NodesOf(inputs), schema.value);
      GraphAppend(nodes, node, nextTransform, nextTransform + 1);
      forall s
        ensures ScanCount(nodes + [node], s) == ScanCount(nodes, s)
      {
        ScanCountAppend(nodes, node, s);
      }
      if Valid() {
        BindingsPrefix(nodes, nodes + [node], scans, sources);
      }
      r := Ok(LoweredRelation(|nodes|, schema.value));
      nextTransform := nextTransform + 1;
      nodes := nodes + [node];
    }

    /** Selects columns by position under the target's names, unless that changes nothing. */
    method ProjectColumns(input: LoweredRelation, positions: seq<nat>, target: Schema)
      returns (r: Result<LoweredRelation>)
      requires GraphOk(nodes, nextTransform) && IsRelation(nodes, input)
      modifies this`nodes, this`nextTransform
      ensures r.Ok? ==> GraphOk(nodes, nextTransform)
      ensures r.Ok? ==> Projects(old(nodes), input, positions, target, nodes, r.value)
      ensures r.Ok? && TypesFit(input.schema, positions, target) ==> r.value.schema == target
      ensures r.Ok? ==> (nodes == old(nodes) <==> input.schema == target && positions == Positions(|positions|))
      ensures r.Ok? && nodes == old(nodes) ==> r.value == input
      ensures r.Ok? ==> forall s :: ScanCount(nodes, s) == ScanCount(old(nodes), s)
      ensures r.Ok? && old(Valid()) ==> Valid()
      ensures r.Err? && r.error.Rejected? ==> !Liberal(binder) || !UniqueNames(target)
      ensures r.Err? && !r.error.Rejected? ==>
        |positions| != |target.fields| || exists k :: 0 <= k < |positions| && positions[k] >= |input.schema.fields|
    {
      if |positions| != |target.fields| || exists k :: 0 <= k < |positions| && positions[k] >= |input.schema.fields| {
        return Err(Invalid);
      }
      if input.schema == target && positions == Positions(|positions|) {
        ElidedStep(nodes, input, positions, target);
        return Ok(input);
      }
      ghost var nodes0 := nodes;
      var fields := SelectFields(ColumnsAt(input.schema, positions), target);
      SelectBinds(binder, fields, target.metadata, input, target);
      r := AddTransform([input], SelectOp(fields, target.metadata));
      if r.Ok? {
        SelectedStep(binder, nodes0, input, positions, target, nodes, r.value);
        SelectedAs(binder, nodes0, input, positions, target, nodes, r.value);
      }
    }

    /** Puts the columns of a lowered plan, in order, under a schema of the plan's types. */
    method AlignColumns(input: LoweredRelation, p: Plan, target: Schema) returns (r: Result<LoweredRelation>)
      requires Valid() && WellFormed(p, sources) && Implements(nodes, input, p, sources)
      requires PhysicalTypes(target) == Types(SchemaOf(p))
      modifies this`nodes, this`nextTransform
      ensures r.Ok? ==> Valid() && old(nodes) <= nodes && Implements(nodes, r.value, p, sources)
      ensures r.Ok? ==> r.value.schema == target
      ensures r.Ok? ==> forall s :: ScanCount(nodes, s) == ScanCount(old(nodes), s)
      ensures r.Err? ==> r.error.Rejected? && (!Liberal(binder) || !UniqueNames(target))
    {
      ghost var nodes0 := nodes;
      AlignmentFits(input, p, target);
      r := ProjectColumns(input, Positions(|target.fields|), target);
      if r.Ok? {
        AlignedStep(nodes0, input, p, sources, target, nodes, r.value);
      }
    }

    /** Declares a source on its first occurrence and hands out the shared relation afterwards. */
    method ShareScan(s: nat) returns (r: Result<LoweredRelation>)
      requires Valid() && s < |sources|
      modifies this
      ensures r.Ok? ==> Valid() && old(nodes) <= nodes && SameProjections(old(scans), scans)
      ensures r.Ok? ==> scans[s].relation == Some(r.value)
      ensures r.Err? ==> r.error.Rejected? && !Liberal(binder)
    {
      ghost var scans0, nodes0 := scans, nodes;
      var binding := scans[s];
      assert BindingOk(nodes, binding, s, sources);
      if binding.relation.Some? {
        return Ok(binding.relation.value);
      }
      var d := binding.definition.value;
      scans := scans[s := binding.(definition := None)];
      ScanBinds(binder, d, s, sources[s], binding.projection);
      assert SchemasOf([]) == [];
      var output := OutputSchema(binder, d, []);
      if output.None? {
        return Err(Rejected);
      }
      var full := LoweredRelation(|nodes|, output.value);
      GraphAppend(nodes, Node(ScanId(s), d, [], output.value), nextTransform, nextTransform);
      nodes := nodes + [Node(ScanId(s), d, [], output.value)];
      r := ShareProjection(s, d, binding.projection, full, nodes0);
      if r.Ok? {
        ShareDone(nodes0, scans0, sources, s, d, output.value, nodes, r.value);
        scans := scans[s := ScanBinding(None, binding.projection, Some(r.value))];
        assert scans == scans0[s := ScanBinding(None, binding.projection, Some(r.value))];
      }
    }

    /** The shared relation of a source just declared: its definition already exposes the shared
        projection, or the projection is selected from it. */
    method ShareProjection(s: nat, d: Definition, projection: seq<nat>, full: LoweredRelation, ghost nodes0: seq<Node>)
      returns (r: Result<LoweredRelation>)
      requires GraphOk(nodes, nextTransform) && s < |sources| && UniqueNames(sources[s])
      requires ProjectionOk(sources[s], projection) && ScanDefinition(d, s, sources[s], projection)
      requires ScanDeclared(nodes0, d, s, nodes, full)
      modifies this`nodes, this`nextTransform
      ensures r.Ok? ==> GraphOk(nodes, nextTransform) && old(nodes) <= nodes
      ensures r.Ok? ==> Shares(nodes, r.value, s, projection, sources)
      ensures r.Ok? ==> forall t :: ScanCount(nodes, t) == ScanCount(old(nodes), t)
      ensures r.Err? ==> r.error.Rejected? && !Liberal(binder)
    {
      ProjectSchemaUnique(sources[s], projection);
      var schema := ProjectSchema(sources[s], projection);
      ghost var nodes1 := nodes;
      if full.schema == sources[s] {
        r := ProjectColumns(full, projection, schema);
        if r.Ok? {
          FullScanStep(nodes0, d, s, sources, projection, nodes1, full, nodes, r.value);
        }
      } else if full.schema == schema {
        ProjectedScan(nodes0, d, s, sources, projection, nodes1, full);
        r := Ok(full);
      } else {
        r := Err(Invalid);
      }
    }

    method LowerScan(p: Plan) returns (r: Result<LoweredRelation>)
      requires p.TableScan? && Valid() && WellFormed(p, sources) && Covers(p, scans)
      modifies this
      ensures Lowered(old(nodes), old(scans), p, r)
    {
      if p.embedded || p.source >= |sources| {
        return Err(Invalid);
      }
      ScanProjectionTotal(p.projection, p.schema, sources[p.source]);
      var occurrence := ScanProjection(p.projection, p.schema, sources[p.source]);
      if occurrence.None? {
        return Err(Invalid);
      }
      var shared := ShareScan(p.source);
      if shared.Err? {
        return Err(shared.error);
      }
      r := SelectOccurrence(p, occurrence.value, shared.value);
      if r.Ok? {
        AcceptedBy(p);
      } else {
        ExcusedByItself(binder, r.error, p);
      }
    }

    /** Finds an occurrence's columns in the shared projection and selects them. */
    method SelectOccurrence(p: Plan, occurrence: seq<nat>, shared: LoweredRelation) returns (r: Result<LoweredRelation>)
      requires p.TableScan? && Valid() && WellFormed(p, sources) && Covers(p, scans)
      requires occurrence == ScanPositions(p.projection, |p.schema.fields|) && scans[p.source].relation == Some(shared)
      modifies this`nodes, this`nextTransform
      ensures Declared(old(nodes), p, r)
    {
      var projection := scans[p.source].projection;
      assert BindingOk(nodes, scans[p.source], p.source, sources);
      assert forall c :: c in occurrence ==> Needs(p, p.source, c);
      var positions := Locate(occurrence, projection);
      if positions.None? {
        return Err(Invalid);
      }
      assert |shared.schema.fields| == |PhysicalTypes(shared.schema)| == |projection|;
      ghost var nodes1 := nodes;
      r := ProjectColumns(shared, positions.value, AsArrow(p.schema));
      if r.Ok? {
        ScanStep(nodes1, shared, p, sources, projection, positions.value, AsArrow(p.schema), nodes, r.value);
        ProjectedNames(nodes1, shared, positions.value, AsArrow(p.schema), nodes, r.value);
      }
    }

    method LowerFilter(p: Plan) returns (r: Result<LoweredRelation>)
      requires p.Filtering? && Valid() && WellFormed(p, sources) && Covers(p, scans)
      modifies this
      ensures Lowered(old(nodes), old(scans), p, r)
      decreases p, 1
    {
      r := LowerInput(p, p.input);
      if r.Ok? {
        r := DeclareFilter(p, r.value);
        Declaration(p, p.input, r);
      }
    }

    /** Lowers the input of a plan node that has one. */
    method LowerInput(p: Plan, input: Plan) returns (r: Result<LoweredRelation>)
      requires Inputs(p) == [input] && Valid() && WellFormed(input, sources) && Covers(p, scans)
      modifies this
      ensures r.Ok? ==> Lowered(old(nodes), old(scans), input, r)
      ensures r.Err? ==> Excused(binder, r.error, p)
      decreases p, 0
    {
      assert Inputs(p)[0] == input;
      CoversInput(p, 0, scans);
      r := Lower(input);
      if r.Err? {
        ExcusedUp(binder, r.error, p, 0);
      }
    }

    /** Declaring the operator of a node over its lowered input completes the node. */
    lemma Declaration(p: Plan, input: Plan, r: Result<LoweredRelation>)
      requires Inputs(p) == [input] && Accepted(input) && UsedDeclared(input, scans)
      requires r.Ok? ==> SupportedHere(p) && BindsHere(p)
      requires r.Err? ==> ExcusedHere(binder, r.error, p)
      ensures r.Ok? ==> Accepted(p) && UsedDeclared(p, scans)
      ensures r.Err? ==> Excused(binder, r.error, p)
    {
      if r.Ok? {
        UnaryDone(p, input, scans);
      } else {
        ExcusedByItself(binder, r.error, p);
      }
    }

    method DeclareFilter(p: Plan, input: LoweredRelation) returns (r: Result<LoweredRelation>)
      requires p.Filtering? && Valid() && WellFormed(p, sources) && Implements(nodes, input, p.input, sources)
      modifies this`nodes, this`nextTransform
      ensures Declared(old(nodes), p, r)
    {
      RewriteColumnsTotal(p.condition, SchemaOf(p.input), input.schema);
      var condition := RewriteColumns(p.condition, SchemaOf(p.input), input.schema);
      if condition.None? {
        return Err(Invalid);
      }
      ghost var nodes1 := nodes;
      FilterBinds(binder, p, input);
      r := AddTransform([input], FilterOp(condition.value));
      if r.Ok? {
        FilterStep(binder, nodes1, input, p, sources, nodes, r.value);
      }
    }

    method LowerProjection(p: Plan) returns (r: Result<LoweredRelation>)
      requires p.Projection? && Valid() && WellFormed(p, sources) && Covers(p, scans)
      modifies this
      ensures Lowered(old(nodes), old(scans), p, r)
      decreases p, 1
    {
      r := LowerInput(p, p.input);
      if r.Ok? {
        r := DeclareProjection(p, r.value);
        Declaration(p, p.input, r);
      }
    }

    method DeclareProjection(p: Plan, input: LoweredRelation) returns (r: Result<LoweredRelation>)
      requires p.Projection? && Valid() && WellFormed(p, sources) && Implements(nodes, input, p.input, sources)
      modifies this`nodes, this`nextTransform
      ensures Declared(old(nodes), p, r)
    {
      RewriteAllTotal(UnaliasAll(p.exprs), SchemaOf(p.input), input.schema);
      var exprs := RewriteAll(UnaliasAll(p.exprs), SchemaOf(p.input), input.schema);
      if exprs.None? {
        return Err(Invalid);
      }
      ghost var nodes1 := nodes;
      var fields := SelectFields(exprs.value, AsArrow(p.schema));
      SelectBinds(binder, fields, p.schema.metadata, input, AsArrow(p.schema));
      r := AddTransform([input], SelectOp(fields, p.schema.metadata));
      if r.Ok? {
        ProjectionStep(binder, nodes1, input, p, sources, exprs.value, nodes, r.value);
      }
    }

    method LowerDistinct(p: Plan) returns (r: Result<LoweredRelation>)
      requires p.Deduplicate? && Valid() && WellFormed(p, sources) && Covers(p, scans)
      modifies this
      ensures Lowered(old(nodes), old(scans), p, r)
      decreases p, 1
    {
      r := LowerInput(p, p.input);
      if r.Ok? {
        r := DeclareDistinct(p, r.value);
        Declaration(p, p.input, r);
      }
    }

    method DeclareDistinct(p: Plan, input: LoweredRelation) returns (r: Result<LoweredRelation>)
      requires p.Deduplicate? && Valid() && Implements(nodes, input, p.input, sources)
      modifies this`nodes, this`nextTransform
      ensures Declared(old(nodes), p, r)
    {
      ghost var nodes1 := nodes;
      DistinctBinds(binder, input);
      r := AddTransform([input], DistinctOp);
      if r.Ok? {
        DistinctStep(binder, nodes1, input, p, sources, nodes, r.value);
      }
    }

    method LowerAlias(p: Plan) returns (r: Result<LoweredRelation>)
      requires p.SubqueryAlias? && Valid() && WellFormed(p, sources) && Covers(p, scans)
      modifies this
      ensures Lowered(old(nodes), old(scans), p, r)
      decreases p, 1
    {
      r := LowerInput(p, p.input);
      if r.Ok? {
        AliasStep(nodes, r.value, p, sources);
        UnaryDone(p, p.input, scans);
      }
    }

    /** Lowers the two inputs of a join, left first. */
    method LowerPair(p: Plan, left: Plan, right: Plan) returns (r: Result<(LoweredRelation, LoweredRelation)>)
      requires Inputs(p) == [left, right] && Valid() && Covers(p, scans)
      requires WellFormed(left, sources) && WellFormed(right, sources)
      modifies this
      ensures r.Ok? ==> Valid() && old(nodes) <= nodes && SameProjections(old(scans), scans)
      ensures r.Ok? ==> Implements(nodes, r.value.0, left, sources) && Accepted(left) && UsedDeclared(left, scans)
      ensures r.Ok? ==> Implements(nodes, r.value.1, right, sources) && Accepted(right) && UsedDeclared(right, scans)
      ensures r.Err? ==> Excused(binder, r.error, p)
      decreases p, 0
    {
      assert Inputs(p)[0] == left && Inputs(p)[1] == right;
      CoversInput(p, 0, scans);
      CoversInput(p, 1, scans);
      ghost var scans0 := scans;
      var l := Lower(left);
      if l.Err? {
        ExcusedUp(binder, l.error, p, 0);
        return Err(l.error);
      }
      ghost var nodes1, scans1 := nodes, scans;
      CoversSame(right, scans0, scans1);
      var x := Lower(right);
      if x.Err? {
        ExcusedUp(binder, x.error, p, 1);
        return Err(x.error);
      }
      ImplementsPrefix(nodes1, nodes, l.value, left, sources);
      UsedSame(left, scans1, scans);
      SameTransitive(scans0, scans1, scans);
      r := Ok((l.value, x.value));
    }

    method LowerAsOfJoin(p: Plan) returns (r: Result<LoweredRelation>)
      requires p.AsOfJoin? && Valid() && WellFormed(p, sources) && Covers(p, scans)
      modifies this
      ensures Lowered(old(nodes), old(scans), p, r)
      decreases p, 1
    {
      var inputs := LowerPair(p, p.left, p.right);
      if inputs.Err? {
        return Err(inputs.error);
      }
      r := DeclareAsOfJoin(p, inputs.value.0, inputs.value.1);
      if r.Ok? {
        BinaryDone(p, p.left, p.right, scans);
      } else {
        ExcusedByItself(binder, r.error, p);
      }
    }

    /** The operator an ASOF join over lowered inputs becomes. */
    method PrepareAsOfJoin(p: Plan, left: LoweredRelation, right: LoweredRelation) returns (r: Result<Definition>)
      requires p.AsOfJoin? && WellFormed(p, sources)
      requires |left.schema.fields| == Arity(p.left) && |right.schema.fields| == Arity(p.right)
      ensures r.Ok? && AsOfLowered(p, left, right, r.value)
      ensures r.value.names == JoinFieldNames(|left.schema.fields| + |right.schema.fields|)
    {
      var ls, rs := SchemaOf(p.left), SchemaOf(p.right);
      RewriteKeysTotal(p.on, ls, rs, left.schema, right.schema);
      RewriteColumnsTotal(p.matchLeft, ls, left.schema);
      RewriteColumnsTotal(p.matchRight, rs, right.schema);
      var equalities := RewriteKeys(p.on, ls, rs, left.schema, right.schema);
      var direction := AsOfDirection(p.matchOp);
      var order := RewriteKey((p.matchLeft, p.matchRight), ls, rs, left.schema, right.schema);
      if equalities.None? || direction.None? || order.None? {
        return Err(Invalid);
      }
      r := Ok(AsOfOp(direction.value.backward, direction.value.allowExact, equalities.value, order.value,
                     JoinFieldNames(|left.schema.fields| + |right.schema.fields|)));
    }

    method DeclareAsOfJoin(p: Plan, left: LoweredRelation, right: LoweredRelation) returns (r: Result<LoweredRelation>)
      requires p.AsOfJoin? && Valid() && WellFormed(p, sources)
      requires Implements(nodes, left, p.left, sources) && Implements(nodes, right, p.right, sources)
      modifies this`nodes, this`nextTransform
      ensures Declared(old(nodes), p, r)
    {
      assert |PhysicalTypes(left.schema)| == Arity(p.left) && |PhysicalTypes(right.schema)| == Arity(p.right);
      var d := PrepareAsOfJoin(p, left, right);
      AsOfBinds(binder, p, left, right, d.value);
      r := AddAsOf(p, left, right, d.value);
      if r.Ok? {
        r := AlignInternally(p, r.value);
      }
    }

    /** Declares the ASOF join. */
    method AddAsOf(p: Plan, left: LoweredRelation, right: LoweredRelation, d: Definition)
      returns (r: Result<LoweredRelation>)
      requires p.AsOfJoin? && Valid() && WellFormed(p, sources) && AsOfLowered(p, left, right, d)
      requires Implements(nodes, left, p.left, sources) && Implements(nodes, right, p.right, sources)
      requires BindsExactly(binder, d, [left, right], BindsHere(p))
      modifies this`nodes, this`nextTransform
      ensures Declared(old(nodes), p, r)
    {
      ghost var nodes1 := nodes;
      r := AddTransform([left, right], d);
      if r.Ok? {
        AsOfStep(binder, nodes1, left, right, p, sources, d, nodes, r.value);
      }
    }

    /** Puts a joined relation, already in SQL order, under internal names. */
    method AlignInternally(p: Plan, joined: LoweredRelation) returns (r: Result<LoweredRelation>)
      requires p.AsOfJoin? && Valid() && WellFormed(p, sources) && Implements(nodes, joined, p, sources)
      modifies this`nodes, this`nextTransform
      ensures r.Ok? ==> Valid() && old(nodes) <= nodes && Implements(nodes, r.value, p, sources)
      ensures r.Err? ==> r.error.Rejected? && !Liberal(binder)
    {
      AlignedTargetUnique(p.schema);
      AlignedTargetTypes(p.schema);
      r := AlignColumns(joined, p, AlignedTarget(p.schema));
    }

    method LowerJoin(p: Plan) returns (r: Result<LoweredRelation>)
      requires p.Join? && Valid() && WellFormed(p, sources) && Covers(p, scans)
      modifies this
      ensures Lowered(old(nodes), old(scans), p, r)
      decreases p, 1
    {
      if !p.constraint.On? || p.nullEqualsNull || p.nullAware {
        return Err(UnsupportedPlan);
      }
      var logicalKeys, residuals := CollectJoinCondition(p.on, p.filter, SchemaOf(p.left), SchemaOf(p.right));
      if logicalKeys == [] {
        return Err(UnsupportedPlan);
      }
      var inputs := LowerPair(p, p.left, p.right);
      if inputs.Err? {
        return Err(inputs.error);
      }
      r := JoinPair(p, inputs.value.0, inputs.value.1, logicalKeys, residuals);
      if r.Ok? {
        BinaryDone(p, p.left, p.right, scans);
      } else {
        ExcusedByItself(binder, r.error, p);
      }
    }

    method JoinPair(p: Plan, left: LoweredRelation, right: LoweredRelation, logicalKeys: seq<Key>, residuals: seq<Expr>)
      returns (r: Result<LoweredRelation>)
      requires p.Join? && Valid() && WellFormed(p, sources) && logicalKeys != []
      requires Linked(p.on, p.filter, SchemaOf(p.left), SchemaOf(p.right))
      requires p.constraint.On? && !p.nullEqualsNull && !p.nullAware
      requires Implements(nodes, left, p.left, sources) && Implements(nodes, right, p.right, sources)
      requires logicalKeys == KeysOf(ConditionConjuncts(p.on, p.filter), SchemaOf(p.left), SchemaOf(p.right))
      requires residuals == ResidualsOf(ConditionConjuncts(p.on, p.filter), SchemaOf(p.left), SchemaOf(p.right))
      modifies this`nodes, this`nextTransform
      ensures Declared(old(nodes), p, r)
    {
      assert |PhysicalTypes(left.schema)| == Arity(p.left) && |PhysicalTypes(right.schema)| == Arity(p.right);
      var prepared := PrepareJoin(p, left, right, logicalKeys, residuals);
      if prepared.Err? {
        return Err(prepared.error);
      }
      r := DeclareJoin(p, left, right, prepared.value.0, prepared.value.1);
    }

    /** Renames keys and residual to the physical inputs. */
    method PrepareJoin(p: Plan, left: LoweredRelation, right: LoweredRelation, logicalKeys: seq<Key>,
                       residuals: seq<Expr>)
      returns (r: Result<(seq<Key>, Option<Expr>)>)
      requires p.Join? && JoinColumns(p.on, p.filter, SchemaOf(p.left), SchemaOf(p.right))
      requires |left.schema.fields| == Arity(p.left) && |right.schema.fields| == Arity(p.right)
      requires logicalKeys == KeysOf(ConditionConjuncts(p.on, p.filter), SchemaOf(p.left), SchemaOf(p.right))
      requires residuals == ResidualsOf(ConditionConjuncts(p.on, p.filter), SchemaOf(p.left), SchemaOf(p.right))
      ensures r.Ok? ==> JoinLowered(p, left, right, r.value.0, r.value.1) && |r.value.0| == |logicalKeys|
      ensures r.Ok? ==> !p.kind.LeftMark? && !p.kind.RightMark?
      ensures r.Err? ==> r.error.UnsupportedPlan? && (p.kind.LeftMark? || p.kind.RightMark?)
    {
      var ls, rs := SchemaOf(p.left), SchemaOf(p.right);
      KeysOfColumns(ConditionConjuncts(p.on, p.filter), ls, rs);
      RewriteKeysTotal(logicalKeys, ls, rs, left.schema, right.schema);
      var keys := RewriteKeys(logicalKeys, ls, rs, left.schema, right.schema);
      if keys.None? {
        return Err(Invalid);
      }
      var oriented := OrientJoin(p.kind, left, right, keys.value);
      if oriented.None? {
        return Err(UnsupportedPlan);
      }
      OrientJoinShape(p.kind, left, right, keys.value);
      var o := oriented.value;
      var residual := PrepareResidual(p, residuals, o.port0.schema, o.port1.schema, o.swapped);
      r := Ok((keys.value, residual.value));
    }

    /** Reduces the residuals and renames them to the ports. */
    method PrepareResidual(p: Plan, residuals: seq<Expr>, port0: Schema, port1: Schema, swapped: bool)
      returns (r: Result<Option<Expr>>)
      requires p.Join? && JoinColumns(p.on, p.filter, SchemaOf(p.left), SchemaOf(p.right))
      requires |(if swapped then port1 else port0).fields| == Arity(p.left)
      requires |(if swapped then port0 else port1).fields| == Arity(p.right)
      requires residuals == ResidualsOf(ConditionConjuncts(p.on, p.filter), SchemaOf(p.left), SchemaOf(p.right))
      ensures r.Ok?
      ensures ResidualReady(p.on, p.filter, SchemaOf(p.left), SchemaOf(p.right), port0, port1, swapped, r.value)
    {
      var ls, rs := SchemaOf(p.left), SchemaOf(p.right);
      var reduced := Reduce(residuals);
      if reduced.None? {
        return Ok(None);
      }
      ConditionColumns(p.on, p.filter, ls, rs);
      ResidualsOfColumns(ConditionConjuncts(p.on, p.filter), ls, rs);
      ReduceColumns(residuals, BelongsToOne(ls, rs));
      RewriteJoinResidualTotal(reduced.value, ls, rs, port0, port1, swapped);
      var residual := RewriteJoinResidual(reduced.value, ls, rs, port0, port1, swapped);
      if residual.None? {
        return Err(Invalid);
      }
      r := Ok(residual);
    }

    /** Declares the oriented join and puts its columns back in SQL order. */
    method DeclareJoin(p: Plan, left: LoweredRelation, right: LoweredRelation, keys: seq<Key>, residual: Option<Expr>)
      returns (r: Result<LoweredRelation>)
      requires p.Join? && Valid() && WellFormed(p, sources) && keys != []
      requires Implements(nodes, left, p.left, sources) && Implements(nodes, right, p.right, sources)
      requires JoinLowered(p, left, right, keys, residual) && !p.kind.LeftMark? && !p.kind.RightMark?
      modifies this`nodes, this`nextTransform
      ensures r.Ok? ==> Valid() && old(nodes) <= nodes && Implements(nodes, r.value, p, sources) && BindsHere(p)
      ensures r.Err? ==> r.error.Rejected? && (!Liberal(binder) || !BindsHere(p))
    {
      OrientJoinShape(p.kind, left, right, keys);
      var o := OrientJoin(p.kind, left, right, keys).value;
      var names := JoinFieldNames(|o.order|);
      ghost var nodes0 := nodes;
      r := AddOriented(p, left, right, keys, residual, o, names);
      if r.Ok? {
        r := OrderJoin(p, left, right, keys, residual, names, o.order, r.value, nodes0);
      }
    }

    /** Declares the join over its ports. */
    method AddOriented(p: Plan, ghost left: LoweredRelation, ghost right: LoweredRelation, ghost keys: seq<Key>,
                       residual: Option<Expr>, o: OrientedJoin, names: seq<string>)
      returns (r: Result<LoweredRelation>)
      requires p.Join? && Valid() && JoinColumns(p.on, p.filter, SchemaOf(p.left), SchemaOf(p.right)) && keys != []
      requires IsRelation(nodes, left) && Fits(left, SchemaOf(p.left))
      requires IsRelation(nodes, right) && Fits(right, SchemaOf(p.right))
      requires JoinLowered(p, left, right, keys, residual) && !p.kind.LeftMark? && !p.kind.RightMark?
      requires OrientJoin(p.kind, left, right, keys) == Some(o) && names == JoinFieldNames(|o.order|)
      modifies this`nodes, this`nextTransform
      ensures r.Ok? ==> Valid() && old(nodes) <= nodes && BindsHere(p)
      ensures r.Ok? ==> JoinDeclared(binder, old(nodes), left, right, p.kind, keys, names, residual, nodes, r.value)
      ensures r.Err? ==> r.error.Rejected? && (!Liberal(binder) || !BindsHere(p))
    {
      OrientJoinShape(p.kind, left, right, keys);
      OrientedBinds(binder, p, left, right, keys, residual);
      r := AddTransform([o.port0, o.port1], EquiJoinOp(o.kind, o.keys, names, residual));
    }

    /** Selects the joined columns in SQL order. */
    method OrderJoin(p: Plan, ghost left: LoweredRelation, ghost right: LoweredRelation, ghost keys: seq<Key>,
                     ghost residual: Option<Expr>, ghost names: seq<string>, order: seq<nat>, joined: LoweredRelation,
                     ghost nodes0: seq<Node>)
      returns (r: Result<LoweredRelation>)
      requires p.Join? && Valid() && WellFormed(p, sources) && nodes0 <= nodes
      requires Implements(nodes0, left, p.left, sources) && Implements(nodes0, right, p.right, sources)
      requires JoinLowered(p, left, right, keys, residual)
      requires JoinDeclared(binder, nodes0, left, right, p.kind, keys, names, residual, nodes, joined)
      requires order == OutputOrder(p.kind, |left.schema.fields|, |right.schema.fields|)
      modifies this`nodes, this`nextTransform
      ensures r.Ok? ==> Valid() && old(nodes) <= nodes && Implements(nodes, r.value, p, sources)
      ensures r.Err? ==> r.error.Rejected? && !Liberal(binder)
    {
      ghost var nodes1 := nodes;
      JoinDeclaredTypes(binder, nodes0, left, right, p.kind, keys, names, residual, nodes1, joined);
      OrderedTypes(p.kind, Types(SchemaOf(p.left)), Types(SchemaOf(p.right)), PhysicalTypes(joined.schema));
      assert |PhysicalTypes(left.schema)| == |left.schema.fields|
          && |PhysicalTypes(right.schema)| == |right.schema.fields|;
      assert |PhysicalTypes(joined.schema)| == |joined.schema.fields|;
      AlignedTargetUnique(p.schema);
      r := ProjectColumns(joined, order, AlignedTarget(p.schema));
      if r.Ok? {
        JoinStep(binder, nodes0, left, right, p, sources, keys, residual, names, nodes1, joined,
                 AlignedTarget(p.schema), nodes, r.value);
      }
    }

    method LowerAggregate(p: Plan) returns (r: Result<LoweredRelation>)
      requires p.Aggregate? && Valid() && WellFormed(p, sources) && Covers(p, scans)
      modifies this
      ensures Lowered(old(nodes), old(scans), p, r)
      decreases p, 1
    {
      if !SupportedGroups(p.groups) {
        return Err(UnsupportedPlan);
      }
      r := LowerInput(p, p.input);
      if r.Ok? {
        r := DeclareAggregate(p, r.value);
        Declaration(p, p.input, r);
      }
    }

    method DeclareAggregate(p: Plan, input: LoweredRelation) returns (r: Result<LoweredRelation>)
      requires p.Aggregate? && Valid() && WellFormed(p, sources) && Implements(nodes, input, p.input, sources)
      requires SupportedGroups(p.groups)
      modifies this`nodes, this`nextTransform
      ensures Declared(old(nodes), p, r)
    {
      RewriteAllTotal(GroupKeys(p.groups), SchemaOf(p.input), input.schema);
      var groups := RewriteAll(GroupKeys(p.groups), SchemaOf(p.input), input.schema);
      if groups.None? || exists k :: 0 <= k < |p.calls| && !Unaliased(p.calls[k]).AggregateFunction? {
        return Err(Invalid);
      }
      CallsSupported(p.calls, SchemaOf(p.input), input.schema);
      var calls := LowerCalls(p.calls, SchemaOf(p.input), input.schema);
      if calls.None? {
        return Err(UnsupportedPlan);
      }
      ghost var nodes1 := nodes;
      AggregateBinds(binder, p, input, groups.value, calls.value);
      r := AddTransform([input], AggregateDefinition(p.schema, groups.value, calls.value));
      if r.Ok? {
        AggregateStep(binder, nodes1, input, p, sources, groups.value, calls.value, nodes, r.value);
      }
    }

    /** Lowers one branch of a union and aligns it with the union's schema. */
    method LowerBranch(p: Plan, k: nat) returns (r: Result<LoweredRelation>)
      requires p.Union? && k < |p.inputs| && Valid() && WellFormed(p, sources) && Covers(p, scans)
      modifies this
      ensures r.Ok? ==> Lowered(old(nodes), old(scans), p.inputs[k], r) && r.value.schema == AsArrow(p.schema)
      ensures r.Err? ==> Excused(binder, r.error, p)
      decreases p, 0
    {
      assert Inputs(p)[k] == p.inputs[k];
      CoversInput(p, k, scans);
      r := Lower(p.inputs[k]);
      if r.Err? {
        ExcusedUp(binder, r.error, p, k);
        return;
      }
      ArrowTypes(p.schema);
      r := AlignColumns(r.value, p.inputs[k], AsArrow(p.schema));
    }

    /** Lowers and aligns every branch of a union, in order. */
    method LowerBranches(p: Plan) returns (r: Result<seq<LoweredRelation>>)
      requires p.Union? && Valid() && WellFormed(p, sources) && Covers(p, scans)
      modifies this
      ensures r.Ok? ==> Valid() && old(nodes) <= nodes && SameProjections(old(scans), scans)
      ensures r.Ok? ==> |r.value| == |p.inputs| && Branches(nodes, scans, p, sources, r.value)
      ensures r.Err? ==> Excused(binder, r.error, p)
      decreases p, 2
    {
      var branches: seq<LoweredRelation> := [];
      for k := 0 to |p.inputs|
        invariant Valid() && old(nodes) <= nodes && SameProjections(old(scans), scans) && Covers(p, scans)
        invariant |branches| == k && Branches(nodes, scans, p, sources, branches)
      {
        ghost var scans1 := scans;
        var more := AppendBranch(p, branches);
        if more.Err? {
          return Err(more.error);
        }
        SameTransitive(old(scans), scans1, scans);
        branches := more.value;
      }
      r := Ok(branches);
    }

    method AppendBranch(p: Plan, branches: seq<LoweredRelation>) returns (r: Result<seq<LoweredRelation>>)
      requires p.Union? && |branches| < |p.inputs| && Valid() && WellFormed(p, sources) && Covers(p, scans)
      requires Branches(nodes, scans, p, sources, branches)
      modifies this
      ensures r.Ok? ==> Valid() && old(nodes) <= nodes && SameProjections(old(scans), scans) && Covers(p, scans)
      ensures r.Ok? ==> |r.value| == |branches| + 1 && Branches(nodes, scans, p, sources, r.value)
      ensures r.Err? ==> Excused(binder, r.error, p)
      decreases p, 1
    {
      ghost var nodes1, scans1 := nodes, scans;
      var branch := LowerBranch(p, |branches|);
      if branch.Err? {
        return Err(branch.error);
      }
      BranchesKept(nodes1, nodes, scans1, scans, branches, p, sources);
      CoversSame(p, scans1, scans);
      BranchesMore(nodes, scans, p, sources, branches, branch.value);
      r := Ok(branches + [branch.value]);
    }

    method LowerUnion(p: Plan) returns (r: Result<LoweredRelation>)
      requires p.Union? && Valid() && WellFormed(p, sources) && Covers(p, scans)
      modifies this
      ensures Lowered(old(nodes), old(scans), p, r)
      decreases p, 3
    {
      var branches := LowerBranches(p);
      if branches.Err? {
        return Err(branches.error);
      }
      if |branches.value| >= 0x1_0000_0000 || |branches.value| == 0 {
        return Err(Invalid);
      }
      ghost var nodes1 := nodes;
      BranchesReady(nodes, scans, p, sources, branches.value);
      UnionBinds(binder, branches.value, AsArrow(p.schema));
      r := AddTransform(branches.value, UnionAllOp(|branches.value|));
      if r.Ok? {
        UnionStep(binder, nodes1, branches.value, p, sources, nodes, r.value);
        NodeDone(p, scans);
      }
    }

    /** Lowering preserves meaning: whenever it succeeds, the declared node denotes the plan for
        every interpretation and every content of the sources. */
    method Lower(p: Plan) returns (r: Result<LoweredRelation>)
      requires Valid() && WellFormed(p, sources) && Covers(p, scans)
      modifies this
      ensures Lowered(old(nodes), old(scans), p, r)
      decreases p, 4
    {
      match p
      case TableScan(_, _, _, _) => r := LowerScan(p);
      case Filtering(_, _) => r := LowerFilter(p);
      case Projection(_, _, _) => r := LowerProjection(p);
      case Deduplicate(_) => r := LowerDistinct(p);
      case Join(_, _, _, _, _, _, _, _, _) => r := LowerJoin(p);
      case AsOfJoin(_, _, _, _, _, _, _, _) => r := LowerAsOfJoin(p);
      case Aggregate(_, _, _, _) => r := LowerAggregate(p);
      case Union(_, _) => r := LowerUnion(p);
      case SubqueryAlias(_, _) => r := LowerAlias(p);
      case Unsupported(_) => r := Err(UnsupportedPlan);
    }
  }

  lemma CallsSupported(calls: seq<AggregateExpr>, logical: LogicalSchema, physical: Schema)
    requires |logical.fields| == |physical.fields| && forall k :: 0 <= k < |calls| ==> CallColumns(calls[k], logical)
    ensures LowerCalls(calls, logical, physical).Some? <==> forall k :: 0 <= k < |calls| ==> SupportedCall(calls[k])
  {
    forall k | 0 <= k < |calls|
      ensures LowerCall(calls[k], logical, physical).Some? <==> SupportedCall(calls[k])
    {
      LowerCallSupported(calls[k], logical, physical);
    }
  }

  /** The first branches of a union, lowered and aligned. */
  ghost predicate Branches(nodes: seq<Node>, scans: seq<ScanBinding>, p: Plan, sources: seq<Schema>,
                           branches: seq<LoweredRelation>)
    requires p.Union? && |branches| <= |p.inputs|
  {
    forall j :: 0 <= j < |branches| ==> BranchOk(nodes, scans, p, sources, branches[j], j)
  }

  ghost predicate BranchOk(nodes: seq<Node>, scans: seq<ScanBinding>, p: Plan, sources: seq<Schema>,
                           branch: LoweredRelation, j: nat)
    requires p.Union? && j < |p.inputs|
  {
    && Implements(nodes, branch, p.inputs[j], sources) && branch.schema == AsArrow(p.schema)
    && Accepted(p.inputs[j]) && UsedDeclared(p.inputs[j], scans)
  }

  lemma BranchesMore(nodes: seq<Node>, scans: seq<ScanBinding>, p: Plan, sources: seq<Schema>,
                     branches: seq<LoweredRelation>, branch: LoweredRelation)
    requires p.Union? && |branches| < |p.inputs| && Branches(nodes, scans, p, sources, branches)
    requires BranchOk(nodes, scans, p, sources, branch, |branches|)
    ensures Branches(nodes, scans, p, sources, branches + [branch])
  {
  }

  lemma BranchesKept(nodes: seq<Node>, nodes': seq<Node>, scans: seq<ScanBinding>, scans': seq<ScanBinding>,
                     branches: seq<LoweredRelation>, p: Plan, sources: seq<Schema>)
    requires p.Union? && |branches| <= |p.inputs| && nodes <= nodes' && SameProjections(scans, scans')
    requires Branches(nodes, scans, p, sources, branches)
    ensures Branches(nodes', scans', p, sources, branches)
  {
    forall j | 0 <= j < |branches|
      ensures BranchOk(nodes', scans', p, sources, branches[j], j)
    {
      assert BranchOk(nodes, scans, p, sources, branches[j], j);
      ImplementsPrefix(nodes, nodes', branches[j], p.inputs[j], sources);
      UsedSame(p.inputs[j], scans, scans');
    }
  }

  /** What all branches together give the union. */
  lemma BranchesReady(nodes: seq<Node>, scans: seq<ScanBinding>, p: Plan, sources: seq<Schema>,
                      branches: seq<LoweredRelation>)
    requires p.Union? && |branches| == |p.inputs| && branches != [] && Branches(nodes, scans, p, sources, branches)
    ensures forall j :: 0 <= j < |p.inputs| ==> Implements(nodes, branches[j], p.inputs[j], sources)
    ensures forall j :: 0 <= j < |p.inputs| ==> Accepted(p.inputs[j]) && UsedDeclared(p.inputs[j], scans)
    ensures forall j :: 0 <= j < |branches| ==> branches[j].schema == AsArrow(p.schema)
    ensures UniqueNames(AsArrow(p.schema)) && BindsHere(p)
  {
    forall j | 0 <= j < |p.inputs|
      ensures Implements(nodes, branches[j], p.inputs[j], sources) && branches[j].schema == AsArrow(p.schema)
      ensures Accepted(p.inputs[j]) && UsedDeclared(p.inputs[j], scans)
    {
      assert BranchOk(nodes, scans, p, sources, branches[j], j);
    }
    assert IsRelation(nodes, branches[0]);
  }

  lemma ArrowTypes(s: LogicalSchema)
    ensures PhysicalTypes(AsArrow(s)) == Types(s)
  {
  }

  lemma AlignedTargetTypes(s: LogicalSchema)
    ensures PhysicalTypes(AlignedTarget(s)) == Types(s)
  {
  }

  /** Aligning asks for every column, in order and with its type. */
  lemma AlignmentFits(input: LoweredRelation, p: Plan, target: Schema)
    requires PhysicalTypes(input.schema) == Types(SchemaOf(p)) == PhysicalTypes(target)
    ensures |target.fields| == Arity(p) == |input.schema.fields|
    ensures TypesFit(input.schema, Positions(|target.fields|), target)
  {
    assert |PhysicalTypes(input.schema)| == |PhysicalTypes(target)|;
    forall k | 0 <= k < |target.fields|
      ensures PhysicalTypes(input.schema)[k] == target.fields[k].dtype
    {
      assert PhysicalTypes(target)[k] == target.fields[k].dtype;
    }
  }

  /** A selected relation has the target's names, which are therefore unique. */
  lemma ProjectedNames(nodes: seq<Node>, input: LoweredRelation, positions: seq<nat>, target: Schema,
                       nodes': seq<Node>, r: LoweredRelation)
    requires Projects(nodes, input, positions, target, nodes', r)
    ensures UniqueNames(target)
  {
    forall j, k | 0 <= j < k < |target.fields|
      ensures target.fields[j].name != target.fields[k].name
    {
      assert r.schema.fields[j].name == target.fields[j].name && r.schema.fields[k].name == target.fields[k].name;
    }
  }

  lemma SelectedAs(b: Binder, nodes: seq<Node>, input: LoweredRelation, positions: seq<nat>, target: Schema,
                   nodes': seq<Node>, r: LoweredRelation)
    requires |positions| == |target.fields| && IsRelation(nodes, input)
    requires forall k :: 0 <= k < |positions| ==> positions[k] < |input.schema.fields|
    requires Declares(b, nodes, [input],
                      SelectOp(SelectFields(ColumnsAt(input.schema, positions), target), target.metadata), nodes', r)
    ensures TypesFit(input.schema, positions, target) ==> r.schema == target
  {
    DeclaredSchema(b, nodes, [input],
                   SelectOp(SelectFields(ColumnsAt(input.schema, positions), target), target.metadata), nodes', r);
    UnaryInputs(input);
    if TypesFit(input.schema, positions, target) {
      SelectedSchema(input.schema, positions, target);
    }
  }

  /** The shared projections hold what every occurrence needs, and every source occurs. */
  lemma UnionsCover(plan: Plan, scans: seq<ScanBinding>)
    requires forall s :: 0 <= s < |scans| ==> UnionOf(plan, s, scans[s].projection)
    ensures Covers(plan, scans) && forall s :: 0 <= s < |scans| ==> Uses(plan, s)
  {
    forall s | 0 <= s < |scans|
      ensures Uses(plan, s)
    {
      assert UnionOf(plan, s, scans[s].projection);
    }
  }

  /** Once a whole query is lowered, every source has been declared exactly once. */
  lemma DeclaredAll(plan: Plan, nodes: seq<Node>, scans: seq<ScanBinding>)
    requires UsedDeclared(plan, scans) && DeclaredOnce(nodes, scans)
    requires forall s :: 0 <= s < |scans| ==> Uses(plan, s)
    ensures forall s :: 0 <= s < |scans| ==> ScanCount(nodes, s) == 1
  {
  }

  /** Lowers a whole query and restores the SQL schema. */
  method LowerQuery(plan: Plan, binder: Binder, sources: seq<Schema>, definitions: seq<(Definition, seq<nat>)>)
    returns (r: Result<LoweredRelation>, lowerer: Lowerer)
    requires WellFormed(plan, sources) && |definitions| == |sources|
    requires forall s :: 0 <= s < |sources| ==>
      Given(definitions[s], s, sources[s]) && UnionOf(plan, s, definitions[s].1)
    ensures lowerer.sources == sources
    ensures r.Ok? ==> lowerer.Valid() && Implements(lowerer.nodes, r.value, plan, sources)
    ensures r.Ok? ==> r.value.schema == AsArrow(SchemaOf(plan))
    ensures r.Ok? ==> forall s :: 0 <= s < |sources| ==> ScanCount(lowerer.nodes, s) == 1
    ensures r.Ok? ==> Lowerable(plan)
    ensures Liberal(binder) && Lowerable(plan) ==> r.Ok?
    ensures r.Err? ==> !r.error.Invalid? && (r.error.UnsupportedPlan? ==> !Supported(plan))
    ensures r.Err? && r.error.Rejected? ==>
      !Liberal(binder) || !Bindable(plan) || !UniqueNames(AsArrow(SchemaOf(plan)))
  {
    lowerer := new Lowerer(binder, sources, definitions);
    UnionsCover(plan, lowerer.scans);
    r := lowerer.Lower(plan);
    if r.Ok? {
      DeclaredAll(plan, lowerer.nodes, lowerer.scans);
      ArrowTypes(SchemaOf(plan));
      r := lowerer.AlignColumns(r.value, plan, AsArrow(SchemaOf(plan)));
    }
  }
}
