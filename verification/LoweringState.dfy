/** Lowering a logical plan to the operator graph. */
module LoweringState {
  import opened Bags
  import opened Options
  import opened Sequences
  import opened Expressions
  import opened Relational
  import opened JoinConditions
  import opened Plans
  import opened Dataflow
  import opened LoweringSteps
  import opened JoinSteps
  import opened OperatorSteps
  import opened SharedScans

  /** A scan not yet declared holds its definition; once declared, the relation every occurrence shares. */
  datatype ScanBinding = ScanBinding(definition: Option<Definition>, projection: seq<nat>,
                                     relation: Option<LoweredRelation>)

  function HexDigit(d: nat): char
    requires d < 16
  {
    "0123456789abcdef"[d]
  }

  function Hex(n: nat): string
  {
    if n < 16 then [HexDigit(n)] else Hex(n / 16) + [HexDigit(n % 16)]
  }

  function PadTo(width: nat, s: string): string
    decreases width - |s|
  {
    if |s| >= width then s else PadTo(width, "0" + s)
  }

  function JoinFieldName(index: nat): string
  {
    "__dogpaddle_sql_join_" + PadTo(8, Hex(index))
  }

  function JoinFieldNames(count: nat): (r: seq<string>)
    ensures |r| == count
  {
    seq(count, k requires 0 <= k => JoinFieldName(k))
  }

  /** The join's schema under internal names. */
  function AlignedTarget(s: LogicalSchema): (r: Schema)
    ensures |r.fields| == |s.fields|
  {
    Schema(seq(|s.fields|, k requires 0 <= k < |s.fields| => s.fields[k].field.(name := JoinFieldName(k))), s.metadata)
  }

  function ProjectSchema(s: Schema, positions: seq<nat>): (r: Schema)
    requires forall k :: 0 <= k < |positions| ==> positions[k] < |s.fields|
    ensures |r.fields| == |positions|
  {
    Schema(seq(|positions|, k requires 0 <= k < |positions| => s.fields[positions[k]]), s.metadata)
  }

  /** A scan definition exposes either the whole source or exactly the shared projection. */
  ghost predicate ScanDefinition(d: Definition, s: nat, source: Schema, projection: seq<nat>)
    requires ProjectionOk(source, projection)
  {
    d == ScanOp(s, source, None) || d == ScanOp(s, ProjectSchema(source, projection), Some(projection))
  }

  ghost predicate ProjectionOk(source: Schema, projection: seq<nat>)
  {
    Increasing(projection) && forall k :: 0 <= k < |projection| ==> projection[k] < |source.fields|
  }

  /** What lowering is given for a source: a definition and the shared projection. */
  ghost predicate Given(definition: (Definition, seq<nat>), s: nat, source: Schema)
  {
    UniqueNames(source) && ProjectionOk(source, definition.1) && ScanDefinition(definition.0, s, source, definition.1)
  }

  /** The shared relation selects the shared projection from the source. */
  ghost predicate Shares(nodes: seq<Node>, r: LoweredRelation, s: nat, projection: seq<nat>, sources: seq<Schema>)
    requires s < |sources| && ProjectionOk(sources[s], projection)
  {
    && IsRelation(nodes, r) && PhysicalTypes(r.schema) == PhysicalTypes(ProjectSchema(sources[s], projection))
    && forall i: Interp, db: Database :: DatabaseConforms(db, sources) ==>
         Evaluate(nodes, r.node, i, db) == Map(Select(projection), db[s])
  }

  ghost predicate BindingOk(nodes: seq<Node>, b: ScanBinding, s: nat, sources: seq<Schema>)
    requires s < |sources|
  {
    && ProjectionOk(sources[s], b.projection) && UniqueNames(sources[s])
    && (b.relation.None? ==> b.definition.Some? && ScanDefinition(b.definition.value, s, sources[s], b.projection))
    && (b.relation.Some? ==> Shares(nodes, b.relation.value, s, b.projection, sources))
  }

  ghost function ScanCount(nodes: seq<Node>, s: nat): nat
  {
    if nodes == [] then 0
    else
      var d := nodes[|nodes| - 1].definition;
      ScanCount(nodes[..|nodes| - 1], s) + if d.ScanOp? && d.source == s then 1 else 0
  }

  /** Transform numbers are handed out once each, in order. */
  ghost predicate IdsOk(nodes: seq<Node>, next: nat)
  {
    && (forall n :: 0 <= n < |nodes| && nodes[n].id.TransformId? ==>
            nodes[n].id.index < next && !nodes[n].definition.ScanOp?)
    && (forall n :: 0 <= n < |nodes| && nodes[n].id.ScanId? ==>
            nodes[n].definition.ScanOp? && nodes[n].definition.source == nodes[n].id.index)
    && (forall m, n :: 0 <= m < n < |nodes| && nodes[m].id.TransformId? ==> nodes[m].id != nodes[n].id)
  }

  ghost predicate GraphOk(nodes: seq<Node>, next: nat)
  {
    (forall n :: 0 <= n < |nodes| ==> Connected(nodes, n)) && IdsOk(nodes, next)
  }

  ghost predicate BindingsOk(nodes: seq<Node>, scans: seq<ScanBinding>, sources: seq<Schema>)
  {
    |scans| == |sources| && forall s :: 0 <= s < |sources| ==> BindingOk(nodes, scans[s], s, sources)
  }

  /** Each source has been declared exactly once, or not yet. */
  ghost predicate DeclaredOnce(nodes: seq<Node>, scans: seq<ScanBinding>)
  {
    forall s :: 0 <= s < |scans| ==> ScanCount(nodes, s) == if scans[s].relation.Some? then 1 else 0
  }

  lemma BindingPrefix(nodes: seq<Node>, nodes': seq<Node>, b: ScanBinding, s: nat, sources: seq<Schema>)
    requires s < |sources| && BindingOk(nodes, b, s, sources) && nodes <= nodes'
    ensures BindingOk(nodes', b, s, sources)
  {
    if b.relation.Some? {
      forall i: Interp, db: Database | DatabaseConforms(db, sources)
        ensures Evaluate(nodes', b.relation.value.node, i, db) == Map(Select(b.projection), db[s])
      {
        EvaluatePrefix(nodes, nodes', b.relation.value.node, i, db);
      }
    }
  }

  lemma BindingsPrefix(nodes: seq<Node>, nodes': seq<Node>, scans: seq<ScanBinding>, sources: seq<Schema>)
    requires BindingsOk(nodes, scans, sources) && nodes <= nodes'
    ensures BindingsOk(nodes', scans, sources)
  {
    forall s | 0 <= s < |sources|
      ensures BindingOk(nodes', scans[s], s, sources)
    {
      BindingPrefix(nodes, nodes', scans[s], s, sources);
    }
  }

  lemma ScanCountAppend(nodes: seq<Node>, node: Node, s: nat)
    ensures ScanCount(nodes + [node], s)
        == ScanCount(nodes, s) + if node.definition.ScanOp? && node.definition.source == s then 1 else 0
  {
    assert (nodes + [node])[..|nodes|] == nodes;
  }

  lemma GraphAppend(nodes: seq<Node>, node: Node, next: nat, next': nat)
    requires GraphOk(nodes, next) && |node.inputs| == InputCount(node.definition)
    requires forall k :: 0 <= k < |node.inputs| ==> node.inputs[k] < |nodes|
    requires (node.id == TransformId(next) && next' == next + 1 && !node.definition.ScanOp?)
          || (node.definition.ScanOp? && node.id == ScanId(node.definition.source) && next' == next)
    ensures GraphOk(nodes + [node], next')
  {
    var nodes' := nodes + [node];
    forall n | 0 <= n < |nodes'|
      ensures Connected(nodes', n)
    {
      if n < |nodes| {
        assert Connected(nodes, n);
      }
    }
  }

  ghost predicate Covers(p: Plan, scans: seq<ScanBinding>)
  {
    forall s, c :: 0 <= s < |scans| && Needs(p, s, c) ==> c in scans[s].projection
  }

  lemma CoversInput(p: Plan, k: nat, scans: seq<ScanBinding>)
    requires Covers(p, scans) && k < |Inputs(p)|
    ensures Covers(Inputs(p)[k], scans)
  {
    forall s, c | 0 <= s < |scans| && Needs(Inputs(p)[k], s, c)
      ensures c in scans[s].projection
    {
      assert Needs(p, s, c);
    }
  }

  ghost predicate SameProjections(a: seq<ScanBinding>, b: seq<ScanBinding>)
  {
    && |a| == |b|
    && forall s :: 0 <= s < |a| ==> a[s].projection == b[s].projection && (a[s].relation.Some? ==> b[s].relation.Some?)
  }

  lemma CoversSame(p: Plan, a: seq<ScanBinding>, b: seq<ScanBinding>)
    requires Covers(p, a) && SameProjections(a, b)
    ensures Covers(p, b)
  {
  }

  /** Every source the plan uses has been declared. */
  ghost predicate UsedDeclared(p: Plan, scans: seq<ScanBinding>)
  {
    forall s :: 0 <= s < |scans| && Uses(p, s) ==> scans[s].relation.Some?
  }

  /** The lowered occurrence of a scan denotes the scan. */
  lemma ScanStep(nodes: seq<Node>, shared: LoweredRelation, p: Plan, sources: seq<Schema>, projection: seq<nat>,
                 positions: seq<nat>, target: Schema, nodes': seq<Node>, r: LoweredRelation)
    requires p.TableScan? && WellFormed(p, sources) && ProjectionOk(sources[p.source], projection)
    requires Shares(nodes, shared, p.source, projection, sources)
    requires |positions| == Arity(p)
    requires forall k :: 0 <= k < |positions| ==>
        positions[k] < |projection| && projection[positions[k]] == ScanPositions(p.projection, Arity(p))[k]
    requires Projects(nodes, shared, positions, target, nodes', r)
    ensures Implements(nodes', r, p, sources)
  {
    var occurrence := ScanPositions(p.projection, Arity(p));
    var source := sources[p.source];
    forall k | 0 <= k < |positions|
      ensures PhysicalTypes(r.schema)[k] == Types(p.schema)[k]
    {
      assert PhysicalTypes(shared.schema)[positions[k]]
          == PhysicalTypes(ProjectSchema(source, projection))[positions[k]];
    }
    assert |PhysicalTypes(shared.schema)| == |projection|;
    forall i: Interp, db: Database | DatabaseConforms(db, sources)
      ensures Evaluate(nodes', r.node, i, db) == Meaning(p, i, db)
    {
      SelectedLength(projection, db[p.source]);
      SelectCompose(projection, positions, occurrence, db[p.source]);
    }
  }

  lemma SelectedLength(positions: seq<nat>, m: Bag)
    ensures AllLength(Map(Select(positions), m), |positions|)
  {
    forall y | y in Map(Select(positions), m)
      ensures |y| == |positions|
    {
      var x := FlatMapMember(When(Always(), Select(positions)), m, y);
    }
  }

  /** A projection as wide as its source selects every column in order. */
  lemma FullProjection(source: Schema, projection: seq<nat>)
    requires ProjectionOk(source, projection) && |projection| == |source.fields|
    ensures projection == Positions(|projection|)
  {
    forall k | 0 <= k < |projection|
      ensures projection[k] == k
    {
      IncreasingAtLeast(projection, k);
      IncreasingAtMost(projection, |projection|, k);
    }
  }

  /** Declaring a scan: the definition's schema decides whether it already is the shared projection. */
  ghost predicate ScanDeclared(nodes: seq<Node>, d: Definition, s: nat, nodes': seq<Node>, r: LoweredRelation)
  {
    && nodes' == nodes + [Node(ScanId(s), d, [], r.schema)]
    && r.node == |nodes|
    && UniqueNames(r.schema)
    && d.ScanOp?
    && d.schema == r.schema
  }

  lemma ScanEvaluates(nodes: seq<Node>, d: Definition, s: nat, nodes': seq<Node>, r: LoweredRelation, i: Interp,
                      db: Database)
    requires ScanDeclared(nodes, d, s, nodes', r)
    ensures Evaluate(nodes', r.node, i, db) == Apply(i, d, [], [], db)
  {
    EvaluateApply(nodes', r.node, i, db);
    assert InputSchemas(nodes', []) == [] && InputBags(nodes', [], i, db) == [];
  }

  /** A definition exposing exactly the projection is shared as it is. */
  lemma ProjectedScan(nodes: seq<Node>, d: Definition, s: nat, sources: seq<Schema>, projection: seq<nat>,
                      nodes': seq<Node>, r: LoweredRelation)
    requires s < |sources| && ProjectionOk(sources[s], projection) && ScanDefinition(d, s, sources[s], projection)
    requires ScanDeclared(nodes, d, s, nodes', r) && r.schema != sources[s]
    requires r.schema == ProjectSchema(sources[s], projection)
    ensures Shares(nodes', r, s, projection, sources)
  {
    forall i: Interp, db: Database | DatabaseConforms(db, sources)
      ensures Evaluate(nodes', r.node, i, db) == Map(Select(projection), db[s])
    {
      ScanEvaluates(nodes, d, s, nodes', r, i, db);
    }
  }

  /** A definition whose schema is the source's exposes the whole source, whichever kind it is. */
  lemma FullScan(nodes: seq<Node>, d: Definition, s: nat, sources: seq<Schema>, projection: seq<nat>,
                 nodes': seq<Node>, r: LoweredRelation, i: Interp, db: Database)
    requires s < |sources| && ProjectionOk(sources[s], projection) && ScanDefinition(d, s, sources[s], projection)
    requires ScanDeclared(nodes, d, s, nodes', r) && r.schema == sources[s] && DatabaseConforms(db, sources)
    ensures Evaluate(nodes', r.node, i, db) == db[s] && AllLength(db[s], |sources[s].fields|)
  {
    ScanEvaluates(nodes, d, s, nodes', r, i, db);
    TypedLength(db[s], PhysicalTypes(sources[s]));
    if d.columns.Some? {
      FullProjection(sources[s], projection);
      IdentitySelect(projection, db[s]);
    }
  }

  lemma FullScanStep(nodes: seq<Node>, d: Definition, s: nat, sources: seq<Schema>, projection: seq<nat>,
                     nodes1: seq<Node>, full: LoweredRelation, nodes2: seq<Node>, r: LoweredRelation)
    requires s < |sources| && ProjectionOk(sources[s], projection) && ScanDefinition(d, s, sources[s], projection)
    requires ScanDeclared(nodes, d, s, nodes1, full) && full.schema == sources[s]
    requires Projects(nodes1, full, projection, ProjectSchema(sources[s], projection), nodes2, r)
    ensures Shares(nodes2, r, s, projection, sources)
  {
    forall k | 0 <= k < |projection|
      ensures PhysicalTypes(r.schema)[k] == PhysicalTypes(ProjectSchema(sources[s], projection))[k]
    {
    }
    forall i: Interp, db: Database | DatabaseConforms(db, sources)
      ensures Evaluate(nodes2, r.node, i, db) == Map(Select(projection), db[s])
    {
      FullScan(nodes, d, s, sources, projection, nodes1, full, i, db);
    }
  }
}
