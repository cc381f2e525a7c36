/** Values, schemas and scalar expressions with SQL's three-valued logic.

    Scalar functions, comparisons of unsupported types and aggregate summaries are taken from
    an arbitrary `Interp`, so every theorem holds for every choice of them. */
module Expressions {
  import opened Options

  /** Arrow types as far as lowering tells them apart. `Flat` covers every remaining
      non-floating, non-nested type. */
  datatype DataType = Boolean | Int64 | Flat(code: nat) | Float(width: nat) | Nested(code: nat)

  /** Types on which key equality is exact equality of values. */
  predicate SupportsKeyType(t: DataType)
  {
    !t.Float? && !t.Nested?
  }

  /** `payload` identifies the value among those of its type. */
  datatype Value = Null | Val(dtype: DataType, payload: int)

  type Row = seq<Value>

  function Bool(b: bool): Value
  {
    Val(Boolean, if b then 1 else 0)
  }

  predicate IsTrue(v: Value)
  {
    v == Bool(true)
  }

  predicate Conforms(v: Value, t: DataType)
  {
    v.Null? || v.dtype == t
  }

  datatype Field = Field(name: string, dtype: DataType, nullable: bool, metadata: map<string, string>)

  /** An Arrow schema. */
  datatype Schema = Schema(fields: seq<Field>, metadata: map<string, string>)

  datatype QualifiedField = QualifiedField(qualifier: Option<string>, field: Field)

  /** A logical schema: fields that may carry a relation name. */
  datatype LogicalSchema = LogicalSchema(fields: seq<QualifiedField>, metadata: map<string, string>)

  function Unqualified(s: Schema): (r: LogicalSchema)
    ensures |r.fields| == |s.fields|
  {
    LogicalSchema(seq(|s.fields|, k requires 0 <= k < |s.fields| => QualifiedField(None, s.fields[k])), s.metadata)
  }

  function AsArrow(s: LogicalSchema): (r: Schema)
    ensures |r.fields| == |s.fields|
  {
    Schema(seq(|s.fields|, k requires 0 <= k < |s.fields| => s.fields[k].field), s.metadata)
  }

  function Beside(left: LogicalSchema, right: LogicalSchema): (r: LogicalSchema)
    ensures |r.fields| == |left.fields| + |right.fields|
  {
    LogicalSchema(left.fields + right.fields, map[])
  }

  predicate UniqueNames(s: Schema)
  {
    forall j, k :: 0 <= j < k < |s.fields| ==> s.fields[j].name != s.fields[k].name
  }

  /** A column reference names field `f`: an unqualified reference ignores the qualifier. */
  predicate Names(f: QualifiedField, qualifier: Option<string>, name: string)
  {
    f.field.name == name && (qualifier.Some? ==> f.qualifier == qualifier)
  }

  function ResolveFrom(s: LogicalSchema, qualifier: Option<string>, name: string, k: nat): (r: Option<nat>)
    requires k <= |s.fields|
    ensures r.Some? ==> k <= r.value < |s.fields| && Names(s.fields[r.value], qualifier, name)
    ensures r.Some? ==> forall j :: k <= j < r.value ==> !Names(s.fields[j], qualifier, name)
    ensures r.None? ==> forall j :: k <= j < |s.fields| ==> !Names(s.fields[j], qualifier, name)
    decreases |s.fields| - k
  {
    if k == |s.fields| then None
    else if Names(s.fields[k], qualifier, name) then Some(k)
    else ResolveFrom(s, qualifier, name, k + 1)
  }

  /** The first field a column reference names. */
  function Resolve(s: LogicalSchema, qualifier: Option<string>, name: string): (r: Option<nat>)
    ensures r.Some? ==> r.value < |s.fields| && Names(s.fields[r.value], qualifier, name)
    ensures r.Some? ==> forall j :: 0 <= j < r.value ==> !Names(s.fields[j], qualifier, name)
    ensures r.None? ==> forall j :: 0 <= j < |s.fields| ==> !Names(s.fields[j], qualifier, name)
  {
    ResolveFrom(s, qualifier, name, 0)
  }

  datatype Operator = And | Eq | Lt | LtEq | Gt | GtEq | Other(name: string, dtype: DataType)

  datatype Expr =
    | Column(qualifier: Option<string>, name: string)
    | Literal(value: Value)
    | Alias(expr: Expr, alias: string)
    | Binary(left: Expr, op: Operator, right: Expr)
    | Call(function_: string, dtype: DataType, args: seq<Expr>)

  /** Aggregate functions by name. */
  datatype AggregateName = CountFn | SumFn | AvgFn | MinFn | MaxFn | OtherFn(name: string)

  datatype Interp = Interp(
    equal: (Value, Value) -> bool,
    less: (Value, Value) -> bool,
    operator: (string, Value, Value) -> Value,
    call: (string, seq<Value>) -> Value,
    summary: (AggregateName, multiset<Value>) -> Value)

  /** A value of type `t` or NULL: what any operation declared of type `t` returns. */
  function OfType(v: Value, t: DataType): (r: Value)
    ensures Conforms(r, t)
  {
    if Conforms(v, t) then v else Null
  }

  ghost function SqlAnd(a: Value, b: Value): Value
  {
    if IsTrue(a) && IsTrue(b) then Bool(true)
    else if a == Bool(false) || b == Bool(false) then Bool(false)
    else Null
  }

  ghost predicate Same(i: Interp, a: Value, b: Value)
    requires a.Val? && b.Val?
  {
    if a.dtype == b.dtype && SupportsKeyType(a.dtype) then a == b else i.equal(a, b)
  }

  ghost function Compare(i: Interp, op: Operator, a: Value, b: Value): Value
  {
    if a.Null? || b.Null? then Null
    else match op
      case Eq => Bool(Same(i, a, b))
      case Lt => Bool(i.less(a, b))
      case LtEq => Bool(i.less(a, b) || Same(i, a, b))
      case Gt => Bool(i.less(b, a))
      case GtEq => Bool(i.less(b, a) || Same(i, a, b))
      case _ => Null
  }

  ghost function Operate(i: Interp, op: Operator, a: Value, b: Value): Value
  {
    match op
    case And => SqlAnd(a, b)
    case Other(name, dtype) => OfType(i.operator(name, a, b), dtype)
    case _ => Compare(i, op, a, b)
  }

  ghost function Cell(row: Row, index: Option<nat>): Value
  {
    if index.Some? && index.value < |row| then row[index.value] else Null
  }

  ghost function Eval(i: Interp, e: Expr, s: LogicalSchema, row: Row): Value
    decreases e
  {
    match e
    case Column(qualifier, name) => Cell(row, Resolve(s, qualifier, name))
    case Literal(value) => value
    case Alias(inner, _) => Eval(i, inner, s, row)
    case Binary(left, op, right) => Operate(i, op, Eval(i, left, s, row), Eval(i, right, s, row))
    case Call(name, dtype, args) =>
      OfType(i.call(name, seq(|args|, k requires 0 <= k < |args| => Eval(i, args[k], s, row))), dtype)
  }

  ghost function EvalAll(i: Interp, es: seq<Expr>, s: LogicalSchema, row: Row): (r: Row)
    ensures |r| == |es|
  {
    seq(|es|, k requires 0 <= k < |es| => Eval(i, es[k], s, row))
  }

  function ExprType(e: Expr, s: LogicalSchema): DataType
  {
    match e
    case Column(qualifier, name) =>
      var index := Resolve(s, qualifier, name);
      if index.Some? then s.fields[index.value].field.dtype else Flat(0)
    case Literal(value) => if value.Val? then value.dtype else Flat(0)
    case Alias(inner, _) => ExprType(inner, s)
    case Binary(_, op, _) => if op.Other? then op.dtype else Boolean
    case Call(_, dtype, _) => dtype
  }

  function Types(s: LogicalSchema): (r: seq<DataType>)
    ensures |r| == |s.fields|
  {
    seq(|s.fields|, k requires 0 <= k < |s.fields| => s.fields[k].field.dtype)
  }

  function PhysicalTypes(s: Schema): (r: seq<DataType>)
    ensures |r| == |s.fields|
  {
    seq(|s.fields|, k requires 0 <= k < |s.fields| => s.fields[k].dtype)
  }

  ghost predicate HasTypes(row: Row, types: seq<DataType>)
  {
    |row| == |types| && forall k :: 0 <= k < |row| ==> Conforms(row[k], types[k])
  }

  /** Type soundness of evaluation. */
  lemma {:induction false} EvalConforms(i: Interp, e: Expr, s: LogicalSchema, row: Row)
    requires HasTypes(row, Types(s))
    ensures Conforms(Eval(i, e, s, row), ExprType(e, s))
  {
    match e
    case Column(qualifier, name) =>
      var index := Resolve(s, qualifier, name);
      if index.Some? {
        assert Conforms(row[index.value], Types(s)[index.value]);
      }
    case Literal(_) =>
    case Alias(inner, _) => EvalConforms(i, inner, s, row);
    case Binary(_, _, _) =>
    case Call(_, _, _) =>
  }

  /** On supported key types, SQL `=` is TRUE exactly for equal non-NULL values. */
  lemma KeyEquality(i: Interp, a: Value, b: Value, t: DataType)
    requires Conforms(a, t) && Conforms(b, t) && SupportsKeyType(t)
    ensures IsTrue(Compare(i, Eq, a, b)) <==> a.Val? && b.Val? && a == b
  {
  }

  /** Every column reference of `e` satisfies `p`. */
  predicate AllColumns(e: Expr, p: (Option<string>, string) -> bool)
  {
    match e
    case Column(qualifier, name) => p(qualifier, name)
    case Literal(_) => true
    case Alias(inner, _) => AllColumns(inner, p)
    case Binary(left, _, right) => AllColumns(left, p) && AllColumns(right, p)
    case Call(_, _, args) => forall k :: 0 <= k < |args| ==> AllColumns(args[k], p)
  }

  predicate HasColumns(e: Expr)
  {
    match e
    case Column(_, _) => true
    case Literal(_) => false
    case Alias(inner, _) => HasColumns(inner)
    case Binary(left, _, right) => HasColumns(left) || HasColumns(right)
    case Call(_, _, args) => exists k :: 0 <= k < |args| && HasColumns(args[k])
  }

  /** Rewrites the column references of an expression bottom-up, failing if `f` fails on one. */
  function TransformColumns(e: Expr, f: (Option<string>, string) -> Option<Expr>): Option<Expr>
  {
    match e
    case Column(qualifier, name) => f(qualifier, name)
    case Literal(_) => Some(e)
    case Alias(inner, alias) =>
      var r := TransformColumns(inner, f);
      if r.Some? then Some(Alias(r.value, alias)) else None
    case Binary(left, op, right) =>
      var l := TransformColumns(left, f);
      var r := TransformColumns(right, f);
      if l.Some? && r.Some? then Some(Binary(l.value, op, r.value)) else None
    case Call(name, dtype, args) =>
      if forall k :: 0 <= k < |args| ==> TransformColumns(args[k], f).Some?
      then Some(Call(name, dtype,
                     seq(|args|, k requires 0 <= k < |args| && TransformColumns(args[k], f).Some? =>
                       TransformColumns(args[k], f).value)))
      else None
  }

  /** A column rewrite that succeeds on every reference succeeds on the expression. */
  lemma {:induction false} TransformTotal(e: Expr, f: (Option<string>, string) -> Option<Expr>,
                                          p: (Option<string>, string) -> bool)
    requires AllColumns(e, p)
    requires forall q, n :: p(q, n) ==> f(q, n).Some?
    ensures TransformColumns(e, f).Some?
  {
    match e
    case Column(_, _) =>
    case Literal(_) =>
    case Alias(inner, _) => TransformTotal(inner, f, p);
    case Binary(left, _, right) =>
      TransformTotal(left, f, p);
      TransformTotal(right, f, p);
    case Call(_, _, args) =>
      forall k | 0 <= k < |args|
        ensures TransformColumns(args[k], f).Some?
      {
        TransformTotal(args[k], f, p);
      }
  }

  /** A column rewrite that keeps the value of every reference keeps the value of the expression,
      under any interpretation, even when schema and row change. */
  lemma {:induction false} TransformSound(
    i: Interp, e: Expr, f: (Option<string>, string) -> Option<Expr>, p: (Option<string>, string) -> bool,
    s: LogicalSchema, row: Row, s': LogicalSchema, row': Row)
    requires AllColumns(e, p) && TransformColumns(e, f).Some?
    requires forall q, n :: p(q, n) && f(q, n).Some? ==>
        Eval(i, f(q, n).value, s', row') == Eval(i, Column(q, n), s, row)
    ensures Eval(i, TransformColumns(e, f).value, s', row') == Eval(i, e, s, row)
  {
    match e
    case Column(_, _) =>
    case Literal(_) =>
    case Alias(inner, _) => TransformSound(i, inner, f, p, s, row, s', row');
    case Binary(left, _, right) =>
      TransformSound(i, left, f, p, s, row, s', row');
      TransformSound(i, right, f, p, s, row, s', row');
    case Call(name, _, args) =>
      var new' := TransformColumns(e, f).value.args;
      forall k | 0 <= k < |args|
        ensures Eval(i, new'[k], s', row') == Eval(i, args[k], s, row)
      {
        TransformSound(i, args[k], f, p, s, row, s', row');
      }
      assert seq(|new'|, k requires 0 <= k < |new'| => Eval(i, new'[k], s', row'))
          == seq(|args|, k requires 0 <= k < |args| => Eval(i, args[k], s, row));
  }

  /** Two rows that agree on every reference of `e` give it the same value. */
  lemma {:induction false} EvalAgrees(
    i: Interp, e: Expr, p: (Option<string>, string) -> bool, s: LogicalSchema, row: Row, s': LogicalSchema, row': Row)
    requires AllColumns(e, p)
    requires forall q, n :: p(q, n) ==> Eval(i, Column(q, n), s', row') == Eval(i, Column(q, n), s, row)
    ensures Eval(i, e, s', row') == Eval(i, e, s, row)
  {
    match e
    case Column(_, _) =>
    case Literal(_) =>
    case Alias(inner, _) => EvalAgrees(i, inner, p, s, row, s', row');
    case Binary(left, _, right) =>
      EvalAgrees(i, left, p, s, row, s', row');
      EvalAgrees(i, right, p, s, row, s', row');
    case Call(name, _, args) =>
      forall k | 0 <= k < |args|
        ensures Eval(i, args[k], s', row') == Eval(i, args[k], s, row)
      {
        EvalAgrees(i, args[k], p, s, row, s', row');
      }
      assert seq(|args|, k requires 0 <= k < |args| => Eval(i, args[k], s', row'))
          == seq(|args|, k requires 0 <= k < |args| => Eval(i, args[k], s, row));
  }

  lemma {:induction false} AllColumnsWeaken(e: Expr, p: (Option<string>, string) -> bool,
                                            p': (Option<string>, string) -> bool)
    requires AllColumns(e, p)
    requires forall q, n :: p(q, n) ==> p'(q, n)
    ensures AllColumns(e, p')
  {
    match e
    case Column(_, _) =>
    case Literal(_) =>
    case Alias(inner, _) => AllColumnsWeaken(inner, p, p');
    case Binary(left, _, right) =>
      AllColumnsWeaken(left, p, p');
      AllColumnsWeaken(right, p, p');
    case Call(_, _, args) =>
      forall k | 0 <= k < |args|
        ensures AllColumns(args[k], p')
      {
        AllColumnsWeaken(args[k], p, p');
      }
  }

  function ResolvesIn(s: LogicalSchema): (Option<string>, string) -> bool
  {
    (q, n) => Resolve(s, q, n).Some?
  }

  /** A unique name resolves to its own field. */
  lemma ResolveUnique(s: Schema, k: nat)
    requires UniqueNames(s) && k < |s.fields|
    ensures Resolve(Unqualified(s), None, s.fields[k].name) == Some(k)
  {
    var u := Unqualified(s);
    assert Names(u.fields[k], None, s.fields[k].name);
    var r := Resolve(u, None, s.fields[k].name);
    assert r.Some?;
    assert u.fields[r.value].field == s.fields[r.value];
  }

  function PhysicalColumn(logical: LogicalSchema, physical: Schema): (Option<string>, string) -> Option<Expr>
  {
    (q, n) =>
      var index := Resolve(logical, q, n);
      if index.Some? && index.value < |physical.fields|
      then Some(Column(None, physical.fields[index.value].name))
      else None
  }

  /** Renames the columns of a logical expression to the physical fields at the same positions. */
  function RewriteColumns(e: Expr, logical: LogicalSchema, physical: Schema): Option<Expr>
  {
    if |logical.fields| != |physical.fields| then None
    else TransformColumns(e, PhysicalColumn(logical, physical))
  }

  lemma RewriteColumnsTotal(e: Expr, logical: LogicalSchema, physical: Schema)
    requires |logical.fields| == |physical.fields| && AllColumns(e, ResolvesIn(logical))
    ensures RewriteColumns(e, logical, physical).Some?
  {
    TransformTotal(e, PhysicalColumn(logical, physical), ResolvesIn(logical));
  }

  /** Rename-by-position is sound because physical names are unique. */
  lemma RewriteColumnsSound(i: Interp, e: Expr, logical: LogicalSchema, physical: Schema, row: Row)
    requires AllColumns(e, ResolvesIn(logical)) && UniqueNames(physical)
    requires RewriteColumns(e, logical, physical).Some?
    ensures Eval(i, RewriteColumns(e, logical, physical).value, Unqualified(physical), row) == Eval(i, e, logical, row)
  {
    var f := PhysicalColumn(logical, physical);
    forall q, n | ResolvesIn(logical)(q, n) && f(q, n).Some?
      ensures Eval(i, f(q, n).value, Unqualified(physical), row) == Eval(i, Column(q, n), logical, row)
    {
      ResolveUnique(physical, Resolve(logical, q, n).value);
    }
    TransformSound(i, e, f, ResolvesIn(logical), logical, row, Unqualified(physical), row);
  }

  /** Rename-by-position keeps the type of an expression when the positions agree on types. */
  lemma {:induction false} RewriteColumnsType(e: Expr, logical: LogicalSchema, physical: Schema)
    requires AllColumns(e, ResolvesIn(logical)) && UniqueNames(physical)
    requires Types(logical) == PhysicalTypes(physical)
    requires RewriteColumns(e, logical, physical).Some?
    ensures ExprType(RewriteColumns(e, logical, physical).value, Unqualified(physical)) == ExprType(e, logical)
  {
    match e
    case Column(qualifier, name) =>
      var k := Resolve(logical, qualifier, name).value;
      ResolveUnique(physical, k);
      assert Types(logical)[k] == PhysicalTypes(physical)[k];
    case Literal(_) =>
    case Alias(inner, _) => RewriteColumnsType(inner, logical, physical);
    case Binary(_, _, _) =>
    case Call(_, _, _) =>
  }
}
