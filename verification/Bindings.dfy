/** When the factory accepts what lowering declares: the conditions on names and types that a plan
    must meet, and that nothing else stands in the way of a factory that refuses nothing more. */
module Bindings {
  import opened Options
  import opened Sequences
  import opened Expressions
  import opened Relational
  import opened JoinConditions
  import opened Plans
  import opened Dataflow
  import opened LoweringSteps
  import opened JoinSteps
  import opened OperatorSteps
  import opened SharedScans
  import opened LoweringState

  /** A factory that refuses nothing beyond arity, names and key types. */
  ghost predicate Liberal(b: Binder)
  {
    forall d, inputs :: b.admits(d, inputs)
  }

  predicate PairTypesAgree(pair: Key, left: LogicalSchema, right: LogicalSchema)
  {
    ExprType(pair.0, left) == ExprType(pair.1, right) && SupportsKeyType(ExprType(pair.0, left))
  }

  /** The residual of a join, if there is one, is a Boolean. */
  predicate ResidualIsBoolean(on: seq<(Expr, Expr)>, filter: Option<Expr>, left: LogicalSchema, right: LogicalSchema)
  {
    var residual := Reduce(ResidualsOf(ConditionConjuncts(on, filter), left, right));
    residual.Some? ==> ExprType(residual.value, Beside(left, right)) == Boolean
  }

  /** What the factory asks of the operator that a plan node becomes. */
  predicate BindsHere(p: Plan)
  {
    match p
    case Filtering(condition, input) => ExprType(condition, SchemaOf(input)) == Boolean
    case Join(left, right, _, on, filter, _, _, _, _) => ResidualIsBoolean(on, filter, SchemaOf(left), SchemaOf(right))
    case AsOfJoin(left, right, on, matchLeft, _, matchRight, _, _) =>
      && PairTypesAgree((matchLeft, matchRight), SchemaOf(left), SchemaOf(right))
      && forall k :: 0 <= k < |on| ==> PairTypesAgree(on[k], SchemaOf(left), SchemaOf(right))
    case Deduplicate(_) => true
    case SubqueryAlias(_, _) => true
    case Unsupported(_) => true
    case _ => UniqueNames(AsArrow(p.schema))
  }

  /** Every operator of the plan meets the factory's conditions. */
  ghost predicate Bindable(p: Plan)
    decreases p
  {
    BindsHere(p) && forall k :: 0 <= k < |Inputs(p)| ==> Bindable(Inputs(p)[k])
  }

  /** What lowering can succeed on. */
  ghost predicate Accepted(p: Plan)
  {
    Supported(p) && Bindable(p)
  }

  /** The queries that lowering accepts, as far as the factory refuses nothing more. */
  ghost predicate Lowerable(p: Plan)
  {
    Accepted(p) && UniqueNames(AsArrow(SchemaOf(p)))
  }

  /** The part of `Supported` that a plan node decides itself. */
  predicate SupportedHere(p: Plan)
  {
    match p
    case Join(left, right, kind, on, filter, _, constraint, nullEqualsNull, nullAware) =>
      && constraint.On? && !nullEqualsNull && !nullAware && !kind.LeftMark? && !kind.RightMark?
      && Linked(on, filter, SchemaOf(left), SchemaOf(right))
    case Aggregate(groups, calls, _, _) =>
      SupportedGroups(groups) && forall k :: 0 <= k < |calls| ==> SupportedCall(calls[k])
    case Unsupported(_) => false
    case _ => true
  }

  /** What a plan node must be to be lowered, spelled out. */
  lemma SupportedMeans(p: Plan)
    ensures Supported(p) <==>
      && !p.Unsupported?
      && (p.Join? ==>
        && p.constraint == On && !p.nullEqualsNull && !p.nullAware && p.kind != LeftMark && p.kind != RightMark
        && (|| (exists k :: 0 <= k < |p.on| && LinksEither(p.on[k].0, p.on[k].1, SchemaOf(p.left), SchemaOf(p.right)))
            || (p.filter.Some? && LeafLinks(p.filter.value, SchemaOf(p.left), SchemaOf(p.right)))))
      && (p.Aggregate? ==>
        && |p.groups| > 0 && (forall k :: 0 <= k < |p.groups| ==> p.groups[k].GroupKey?)
        && (forall k :: 0 <= k < |p.calls| ==>
          var c := Unaliased(p.calls[k]);
          c.AggregateFunction? && !c.modified && |c.args| == 1 && c.name in {CountFn, SumFn, AvgFn, MinFn, MaxFn}))
      && forall k :: 0 <= k < |Inputs(p)| ==> Supported(Inputs(p)[k])
  {
    match p
    case Join(left, right, _, _, _, _, _, _, _) => assert Inputs(p)[0] == left && Inputs(p)[1] == right;
    case AsOfJoin(left, right, _, _, _, _, _, _) => assert Inputs(p)[0] == left && Inputs(p)[1] == right;
    case Union(inputs, _) => assert Inputs(p) == inputs;
    case TableScan(_, _, _, _) =>
    case Unsupported(_) =>
    case _ => assert Inputs(p)[0] == p.input;
  }

  /** Only a residual that stands alone can fail to be a Boolean: a conjunction always is one. */
  lemma ResidualBooleanIff(on: seq<(Expr, Expr)>, filter: Option<Expr>, left: LogicalSchema, right: LogicalSchema)
    ensures var residuals := ResidualsOf(ConditionConjuncts(on, filter), left, right);
      ResidualIsBoolean(on, filter, left, right) <==>
        (|residuals| == 1 ==> ExprType(residuals[0], Beside(left, right)) == Boolean)
  {
    var residuals := ResidualsOf(ConditionConjuncts(on, filter), left, right);
    if |residuals| > 0 {
      var rest := residuals[..|residuals| - 1];
      assert |residuals| == 1 ==> rest == [];
      ReduceSome(rest);
    }
  }

  lemma {:induction false} ReduceSome(es: seq<Expr>)
    ensures Reduce(es).Some? <==> es != []
  {
  }

  lemma AcceptedBy(p: Plan)
    requires SupportedHere(p) && BindsHere(p) && forall k :: 0 <= k < |Inputs(p)| ==> Accepted(Inputs(p)[k])
    ensures Accepted(p)
  {
    match p
    case TableScan(_, _, _, _) =>
    case Join(left, right, _, _, _, _, _, _, _) => assert Inputs(p)[0] == left && Inputs(p)[1] == right;
    case AsOfJoin(left, right, _, _, _, _, _, _) => assert Inputs(p)[0] == left && Inputs(p)[1] == right;
    case Union(inputs, _) => assert Inputs(p) == inputs;
    case Unsupported(_) =>
    case _ => assert Inputs(p)[0] == p.input;
  }

  /** An error that lowering may report for a plan: never an internal inconsistency, "unsupported"
      only outside the supported set, and a refusal only by the factory or for its conditions. */
  ghost predicate Excused(b: Binder, e: SqlError, p: Plan)
  {
    match e
    case Invalid => false
    case UnsupportedPlan => !Supported(p)
    case Rejected => !Liberal(b) || !Bindable(p)
  }

  /** The same, for the operator that the plan node itself becomes. */
  ghost predicate ExcusedHere(b: Binder, e: SqlError, p: Plan)
  {
    match e
    case Invalid => false
    case UnsupportedPlan => !SupportedHere(p)
    case Rejected => !Liberal(b) || !BindsHere(p)
  }

  lemma ExcusedByItself(b: Binder, e: SqlError, p: Plan)
    requires ExcusedHere(b, e, p)
    ensures Excused(b, e, p)
  {
  }

  lemma ExcusedUp(b: Binder, e: SqlError, p: Plan, k: nat)
    requires k < |Inputs(p)| && Excused(b, e, Inputs(p)[k])
    ensures Excused(b, e, p)
  {
    if e.UnsupportedPlan? {
      assert !Supported(Inputs(p)[k]);
    }
  }

  // ---- Internal names -----------------------------------------------------

  function DigitValue(c: char): nat
  {
    if '0' <= c <= '9' then c as int - '0' as int
    else if 'a' <= c <= 'f' then c as int - 'a' as int + 10
    else 0
  }

  function FromHex(s: string): nat
  {
    if s == "" then 0 else 16 * FromHex(s[..|s| - 1]) + DigitValue(s[|s| - 1])
  }

  lemma {:induction false} HexBack(n: nat)
    ensures FromHex(Hex(n)) == n
  {
    if n >= 16 {
      HexBack(n / 16);
      assert Hex(n)[..|Hex(n)| - 1] == Hex(n / 16);
    } else {
      assert Hex(n)[..0] == "";
    }
  }

  lemma {:induction false} LeadingZero(s: string)
    ensures FromHex("0" + s) == FromHex(s)
  {
    if s == "" {
      assert ("0" + s)[..0] == "";
    } else {
      LeadingZero(s[..|s| - 1]);
      assert ("0" + s)[..|s|] == "0" + s[..|s| - 1];
    }
  }

  lemma {:induction false} PadBack(width: nat, s: string)
    ensures FromHex(PadTo(width, s)) == FromHex(s)
    decreases width - |s|
  {
    if |s| < width {
      PadBack(width, "0" + s);
      LeadingZero(s);
    }
  }

  /** Internal join field names are distinct. */
  lemma JoinFieldNameInjective(j: nat, k: nat)
    requires JoinFieldName(j) == JoinFieldName(k)
    ensures j == k
  {
    var prefix := "__dogpaddle_sql_join_";
    assert JoinFieldName(j)[|prefix|..] == PadTo(8, Hex(j));
    assert JoinFieldName(k)[|prefix|..] == PadTo(8, Hex(k));
    PadBack(8, Hex(j));
    PadBack(8, Hex(k));
    HexBack(j);
    HexBack(k);
  }

  predicate HexDigits(s: string)
  {
    forall k :: 0 <= k < |s| ==> '0' <= s[k] <= '9' || 'a' <= s[k] <= 'f'
  }

  lemma {:induction false} HexShape(n: nat)
    ensures HexDigits(Hex(n)) && Hex(n) != "" && (|Hex(n)| > 1 ==> Hex(n)[0] != '0')
    ensures n > 0 ==> Hex(n)[0] != '0'
  {
    if n >= 16 {
      HexShape(n / 16);
    }
  }

  lemma {:induction false} PadShape(width: nat, s: string)
    ensures |PadTo(width, s)| == if |s| < width then width else |s|
    ensures |s| >= width ==> PadTo(width, s) == s
    ensures HexDigits(s) ==> HexDigits(PadTo(width, s))
    decreases width - |s|
  {
    if |s| < width {
      PadShape(width, "0" + s);
    }
  }

  /** The name of join field `k` ends with `k` in lower-case hexadecimal, in eight digits or as many as it takes. */
  lemma JoinFieldNameIs(k: nat)
    ensures var name := JoinFieldName(k);
      && |name| >= 29 && name[..21] == "__dogpaddle_sql_join_"
      && HexDigits(name[21..]) && FromHex(name[21..]) == k && (|name| > 29 ==> name[21] != '0')
  {
    HexShape(k);
    PadShape(8, Hex(k));
    PadBack(8, Hex(k));
    HexBack(k);
    assert JoinFieldName(k)[21..] == PadTo(8, Hex(k));
  }

  lemma InternalNamesUnique(s: Schema)
    requires forall k :: 0 <= k < |s.fields| ==> s.fields[k].name == JoinFieldName(k)
    ensures UniqueNames(s)
  {
    forall j, k | 0 <= j < k < |s.fields|
      ensures s.fields[j].name != s.fields[k].name
    {
      if JoinFieldName(j) == JoinFieldName(k) {
        JoinFieldNameInjective(j, k);
      }
    }
  }

  lemma AlignedTargetUnique(s: LogicalSchema)
    ensures UniqueNames(AlignedTarget(s))
  {
    InternalNamesUnique(AlignedTarget(s));
  }

  lemma ProjectSchemaUnique(s: Schema, positions: seq<nat>)
    requires UniqueNames(s) && ProjectionOk(s, positions)
    ensures UniqueNames(ProjectSchema(s, positions))
  {
  }

  // ---- One operator at a time ---------------------------------------------

  /** The factory accepts only if `condition` holds, and a liberal one accepts whenever it does. */
  ghost predicate BindsExactly(b: Binder, d: Definition, inputs: seq<LoweredRelation>, condition: bool)
  {
    && (OutputSchema(b, d, SchemasOf(inputs)).Some? ==> condition)
    && (Liberal(b) && condition ==> OutputSchema(b, d, SchemasOf(inputs)).Some?)
  }

  /** A lowered input of a plan node: unique names and the logical types. */
  ghost predicate Fits(r: LoweredRelation, s: LogicalSchema)
  {
    UniqueNames(r.schema) && PhysicalTypes(r.schema) == Types(s)
  }

  lemma ScanBinds(b: Binder, d: Definition, s: nat, source: Schema, projection: seq<nat>)
    requires UniqueNames(source) && ProjectionOk(source, projection) && ScanDefinition(d, s, source, projection)
    ensures BindsExactly(b, d, [], true)
  {
    ProjectSchemaUnique(source, projection);
  }

  lemma SelectBinds(b: Binder, fields: seq<SelectField>, metadata: map<string, string>, input: LoweredRelation,
                    target: Schema)
    requires UniqueNames(input.schema) && |fields| == |target.fields|
    requires forall k :: 0 <= k < |fields| ==> fields[k].name == target.fields[k].name
    ensures BindsExactly(b, SelectOp(fields, metadata), [input], UniqueNames(target))
  {
    UnaryInputs(input);
    var output := SelectSchema(fields, metadata, input.schema);
    assert UniqueNames(output) <==> UniqueNames(target) by {
      assert forall k :: 0 <= k < |fields| ==> output.fields[k].name == target.fields[k].name;
    }
  }

  lemma FilterBinds(b: Binder, p: Plan, input: LoweredRelation)
    requires p.Filtering? && AllColumns(p.condition, ResolvesIn(SchemaOf(p.input))) && Fits(input, SchemaOf(p.input))
    requires RewriteColumns(p.condition, SchemaOf(p.input), input.schema).Some?
    ensures BindsExactly(b, FilterOp(RewriteColumns(p.condition, SchemaOf(p.input), input.schema).value), [input],
                         BindsHere(p))
  {
    UnaryInputs(input);
    RewriteColumnsType(p.condition, SchemaOf(p.input), input.schema);
  }

  lemma DistinctBinds(b: Binder, input: LoweredRelation)
    requires UniqueNames(input.schema)
    ensures BindsExactly(b, DistinctOp, [input], true)
  {
    UnaryInputs(input);
  }

  lemma PairTypesSame(pair: Key, left: LogicalSchema, right: LogicalSchema, pl: Schema, pr: Schema)
    requires AllColumns(pair.0, ResolvesIn(left)) && AllColumns(pair.1, ResolvesIn(right))
    requires UniqueNames(pl) && UniqueNames(pr) && PhysicalTypes(pl) == Types(left) && PhysicalTypes(pr) == Types(right)
    requires RewriteKey(pair, left, right, pl, pr).Some?
    ensures PairTypesAgree(RewriteKey(pair, left, right, pl, pr).value, Unqualified(pl), Unqualified(pr))
        <==> PairTypesAgree(pair, left, right)
  {
    RewriteColumnsType(pair.0, left, pl);
    RewriteColumnsType(pair.1, right, pr);
  }

  /** Keys taken from a condition have equal, supported types. */
  lemma {:induction false} KeysOfTypes(cs: seq<Expr>, left: LogicalSchema, right: LogicalSchema)
    ensures forall k :: 0 <= k < |KeysOf(cs, left, right)| ==> PairTypesAgree(KeysOf(cs, left, right)[k], left, right)
  {
    if cs != [] {
      KeysOfTypes(cs[..|cs| - 1], left, right);
    }
  }

  /** So the rewritten keys agree, in either orientation. */
  lemma JoinKeysAgree(p: Plan, pl: Schema, pr: Schema, keys: seq<Key>)
    requires p.Join? && Ready(p.on, p.filter, SchemaOf(p.left), SchemaOf(p.right), pl, pr)
    requires KeysReady(p.on, p.filter, SchemaOf(p.left), SchemaOf(p.right), pl, pr, keys)
    ensures KeyTypesAgree(keys, pl, pr) && KeyTypesAgree(SwapKeys(keys), pr, pl)
  {
    var ls, rs := SchemaOf(p.left), SchemaOf(p.right);
    var logical := KeysOf(ConditionConjuncts(p.on, p.filter), ls, rs);
    KeysOfTypes(ConditionConjuncts(p.on, p.filter), ls, rs);
    KeysOfColumns(ConditionConjuncts(p.on, p.filter), ls, rs);
    forall k | 0 <= k < |keys|
      ensures PairTypesAgree(keys[k], Unqualified(pl), Unqualified(pr))
    {
      PairTypesSame(logical[k], ls, rs, pl, pr);
    }
  }

  lemma JoinResidualType(p: Plan, pl: Schema, pr: Schema, residual: Option<Expr>)
    requires p.Join? && Ready(p.on, p.filter, SchemaOf(p.left), SchemaOf(p.right), pl, pr)
    requires ResidualReady(p.on, p.filter, SchemaOf(p.left), SchemaOf(p.right), if Swaps(p.kind) then pr else pl,
                           if Swaps(p.kind) then pl else pr, Swaps(p.kind), residual)
    ensures var port0, port1 := if Swaps(p.kind) then pr else pl, if Swaps(p.kind) then pl else pr;
      (residual.Some? ==> ExprType(residual.value, CandidateSchema(port0, port1)) == Boolean) <==> BindsHere(p)
  {
    var ls, rs := SchemaOf(p.left), SchemaOf(p.right);
    var port0, port1 := if Swaps(p.kind) then pr else pl, if Swaps(p.kind) then pl else pr;
    if residual.Some? {
      var cs := ConditionConjuncts(p.on, p.filter);
      ConditionColumns(p.on, p.filter, ls, rs);
      ResidualsOfColumns(cs, ls, rs);
      ReduceColumns(ResidualsOf(cs, ls, rs), BelongsToOne(ls, rs));
      RewriteJoinResidualType(Reduce(ResidualsOf(cs, ls, rs)).value, ls, rs, port0, port1, Swaps(p.kind));
    }
  }

  lemma JoinedNamesUnique(s0: Schema, s1: Schema, names: seq<string>, pad0: bool, pad1: bool)
    requires |s0.fields| <= |names| <= |s0.fields| + |s1.fields| && names == JoinFieldNames(|names|)
    ensures UniqueNames(Schema(JoinedFields(s0, s1, names, pad0, pad1), map[]))
  {
    InternalNamesUnique(Schema(JoinedFields(s0, s1, names, pad0, pad1), map[]));
  }

  lemma JoinBinds(b: Binder, x: LoweredRelation, y: LoweredRelation, kind: EquiJoinKind, keys: seq<Key>,
                  names: seq<string>, residual: Option<Expr>, condition: bool)
    requires UniqueNames(x.schema) && UniqueNames(y.schema) && keys != [] && KeyTypesAgree(keys, x.schema, y.schema)
    requires names == JoinFieldNames(|x.schema.fields| + if kind.LeftOnly() then 0 else |y.schema.fields|)
    requires (residual.Some? ==> ExprType(residual.value, CandidateSchema(x.schema, y.schema)) == Boolean)
        <==> condition
    ensures BindsExactly(b, EquiJoinOp(kind, keys, names, residual), [x, y], condition)
  {
    BinaryInputs(x, y);
    JoinedNamesUnique(x.schema, y.schema, names, kind.Preserves(1), kind.Preserves(0));
  }

  /** The oriented definition of a join is accepted exactly when its residual is a Boolean. */
  lemma OrientedBinds(b: Binder, p: Plan, left: LoweredRelation, right: LoweredRelation, keys: seq<Key>,
                      residual: Option<Expr>)
    requires JoinLowered(p, left, right, keys, residual) && !p.kind.LeftMark? && !p.kind.RightMark? && keys != []
    requires JoinColumns(p.on, p.filter, SchemaOf(p.left), SchemaOf(p.right))
    requires Fits(left, SchemaOf(p.left)) && Fits(right, SchemaOf(p.right))
    ensures var o := OrientJoin(p.kind, left, right, keys);
      && o.Some?
      && BindsExactly(b, EquiJoinOp(o.value.kind, o.value.keys, JoinFieldNames(|o.value.order|), residual),
                      [o.value.port0, o.value.port1], BindsHere(p))
  {
    OrientJoinShape(p.kind, left, right, keys);
    JoinKeysAgree(p, left.schema, right.schema, keys);
    JoinResidualType(p, left.schema, right.schema, residual);
    var o := OrientJoin(p.kind, left, right, keys).value;
    JoinBinds(b, o.port0, o.port1, o.kind, o.keys, JoinFieldNames(|o.order|), residual, BindsHere(p));
  }

  lemma AsOfKeysAgree(p: Plan, left: LoweredRelation, right: LoweredRelation, d: Definition)
    requires AsOfLowered(p, left, right, d)
    requires AsOfColumns(p.on, p.matchLeft, p.matchRight, SchemaOf(p.left), SchemaOf(p.right))
    requires Fits(left, SchemaOf(p.left)) && Fits(right, SchemaOf(p.right))
    ensures KeyTypesAgree(d.equalities + [d.order], left.schema, right.schema) <==> BindsHere(p)
  {
    var ls, rs, pl, pr := SchemaOf(p.left), SchemaOf(p.right), left.schema, right.schema;
    var all := d.equalities + [d.order];
    PairTypesSame((p.matchLeft, p.matchRight), ls, rs, pl, pr);
    forall k | 0 <= k < |p.on|
      ensures PairTypesAgree(d.equalities[k], Unqualified(pl), Unqualified(pr)) <==> PairTypesAgree(p.on[k], ls, rs)
    {
      PairTypesSame(p.on[k], ls, rs, pl, pr);
    }
    assert all[|p.on|] == d.order && forall k :: 0 <= k < |p.on| ==> all[k] == d.equalities[k];
    assert KeyTypesAgree(all, pl, pr) <==>
      forall k :: 0 <= k < |all| ==> PairTypesAgree(all[k], Unqualified(pl), Unqualified(pr));
  }

  lemma AsOfBinds(b: Binder, p: Plan, left: LoweredRelation, right: LoweredRelation, d: Definition)
    requires AsOfLowered(p, left, right, d)
    requires AsOfColumns(p.on, p.matchLeft, p.matchRight, SchemaOf(p.left), SchemaOf(p.right))
    requires Fits(left, SchemaOf(p.left)) && Fits(right, SchemaOf(p.right))
    requires d.names == JoinFieldNames(|left.schema.fields| + |right.schema.fields|)
    ensures BindsExactly(b, d, [left, right], BindsHere(p))
  {
    BinaryInputs(left, right);
    AsOfKeysAgree(p, left, right, d);
    JoinedNamesUnique(left.schema, right.schema, d.names, false, true);
  }

  lemma AggregateNames(b: Binder, schema: LogicalSchema, groups: seq<Expr>, calls: seq<AggregateCall>, input: Schema)
    requires |schema.fields| == |groups| + |calls|
    ensures var d := AggregateDefinition(schema, groups, calls);
      UniqueNames(AggregateSchema(b, d.groups, d.calls, input)) <==> UniqueNames(AsArrow(schema))
  {
    var d := AggregateDefinition(schema, groups, calls);
    var output := AggregateSchema(b, d.groups, d.calls, input);
    assert forall k :: 0 <= k < |output.fields| ==> output.fields[k].name == schema.fields[k].field.name;
    assert forall k :: 0 <= k < |output.fields| ==> AsArrow(schema).fields[k].name == schema.fields[k].field.name;
  }

  lemma AggregateBinds(b: Binder, p: Plan, input: LoweredRelation, groups: seq<Expr>, calls: seq<AggregateCall>)
    requires p.Aggregate? && UniqueNames(input.schema) && SupportedGroups(p.groups)
    requires |groups| == |p.groups| && |p.schema.fields| == |groups| + |calls|
    ensures BindsExactly(b, AggregateDefinition(p.schema, groups, calls), [input], BindsHere(p))
  {
    UnaryInputs(input);
    AggregateNames(b, p.schema, groups, calls, input.schema);
  }

  /** Aligned branches always unite. */
  lemma UnionBinds(b: Binder, inputs: seq<LoweredRelation>, schema: Schema)
    requires inputs != [] && UniqueNames(schema) && forall k :: 0 <= k < |inputs| ==> inputs[k].schema == schema
    ensures BindsExactly(b, UnionAllOp(|inputs|), inputs, true)
  {
    assert SchemasOf(inputs)[0] == schema;
  }
}
