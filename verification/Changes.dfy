/** Changes, their slices and projections, and the column fast path of expression projection.
    None of the shortcuts validates again, and none needs to. */
module Changes {
  import opened Options
  import opened Sequences
  import opened BigEndian
  import opened Schemas
  import opened Arrays

  const MAX_USIZE: int := 0xffff_ffff_ffff_ffff

  datatype RecordBatch = RecordBatch(schema: Schema, columns: seq<Array>, rows: nat)

  datatype Change = Change(records: RecordBatch, diffs: seq<Option<int>>)

  predicate AllSet(f: Field, a: Array)
  {
    match a
    case Values(slots) => forall k :: 0 <= k < |slots| ==> slots[k].Some?
    case Lists(valid, _, _) => forall k :: 0 <= k < |valid| ==> valid[k]
    case Structs(valid, _) => forall k :: 0 <= k < |valid| ==> valid[k]
  }

  /** What Arrow guarantees of a record batch: one column per field, of its type, of the row
      count, and without nulls where the field has none. */
  predicate ColumnOk(f: Field, a: Array, rows: nat)
  {
    Conforms(f, a) && Length(a) == rows && (f.nullable || AllSet(f, a))
  }

  predicate BatchOk(b: RecordBatch)
  {
    && |b.columns| == |b.schema.fields|
    && forall k :: 0 <= k < |b.columns| ==> ColumnOk(b.schema.fields[k], b.columns[k], b.rows)
  }

  predicate DiffsOk(diffs: seq<Option<int>>)
  {
    forall k :: 0 <= k < |diffs| ==> diffs[k].Some? && diffs[k].value != 0
  }

  ghost predicate DecimalsFit(f: Field, a: Array)
  {
    Conforms(f, a) ==> forall d :: d in Decimals(f, a) ==> Fits(d)
  }

  /** Every invariant of a change. */
  ghost predicate ValidChange(c: Change)
  {
    && BatchOk(c.records) && c.records.rows > 0 && |c.diffs| == c.records.rows && DiffsOk(c.diffs)
    && ValidSchema(c.records.schema)
    && forall k :: 0 <= k < |c.records.columns| ==> DecimalsFit(c.records.schema.fields[k], c.records.columns[k])
  }

  /** The same in literal terms: rows, one non-zero difference for each, a schema within its limits,
      and no decimal that any slot shows out of its precision. */
  ghost predicate SoundChange(records: RecordBatch, diffs: seq<Option<int>>)
    requires BatchOk(records)
  {
    && records.rows > 0 && |diffs| == records.rows
    && (forall k :: 0 <= k < |diffs| ==> diffs[k] != None && diffs[k] != Some(0))
    && Schemas.Accepted(records.schema)
    && forall k :: 0 <= k < |records.columns| ==> ColumnFits(records, k)
  }

  ghost predicate ColumnFits(records: RecordBatch, k: nat)
    requires BatchOk(records) && k < |records.columns|
  {
    assert ColumnOk(records.schema.fields[k], records.columns[k], records.rows);
    AllFit(records.schema.fields[k], records.columns[k])
  }

  lemma SoundIff(records: RecordBatch, diffs: seq<Option<int>>)
    requires BatchOk(records)
    ensures ValidChange(Change(records, diffs)) <==> SoundChange(records, diffs)
  {
    ValidIffAccepted(records.schema);
    forall k | 0 <= k < |records.columns|
      ensures ColumnFits(records, k) <==> DecimalsFit(records.schema.fields[k], records.columns[k])
    {
      assert ColumnOk(records.schema.fields[k], records.columns[k], records.rows);
      AllFitIff(records.schema.fields[k], records.columns[k]);
    }
  }

  /** Decides whether rows and differences, the schema and every decimal are in order. */
  method Validates(records: RecordBatch, diffs: seq<Option<int>>) returns (ok: bool)
    requires BatchOk(records)
    ensures ok <==> ValidChange(Change(records, diffs))
  {
    if records.rows == 0 || records.rows != |diffs| {
      return false;
    }
    for k := 0 to |diffs|
      invariant forall j :: 0 <= j < k ==> diffs[j].Some? && diffs[j].value != 0
    {
      if diffs[k].None? || diffs[k].value == 0 {
        return false;
      }
    }
    ok := ValidateSchema(records.schema);
    if ok {
      ok := ValidateColumnDecimals(records);
    }
  }

  method ValidateColumnDecimals(records: RecordBatch) returns (ok: bool)
    requires BatchOk(records)
    ensures ok <==> forall k :: 0 <= k < |records.columns| ==>
      DecimalsFit(records.schema.fields[k], records.columns[k])
  {
    for k := 0 to |records.columns|
      invariant forall j :: 0 <= j < k ==> DecimalsFit(records.schema.fields[j], records.columns[j])
    {
      assert ColumnOk(records.schema.fields[k], records.columns[k], records.rows);
      ok := ValidateDecimals(records.schema.fields[k], records.columns[k]);
      if !ok {
        assert !DecimalsFit(records.schema.fields[k], records.columns[k]);
        return false;
      }
    }
    ok := true;
  }

  /** Validates a change; accepts exactly the valid ones. */
  method TryNew(records: RecordBatch, diffs: seq<Option<int>>) returns (r: Option<Change>)
    requires BatchOk(records)
    ensures r == if ValidChange(Change(records, diffs)) then Some(Change(records, diffs)) else None
    ensures r == if SoundChange(records, diffs) then Some(Change(records, diffs)) else None
  {
    SoundIff(records, diffs);
    var ok := Validates(records, diffs);
    r := if ok then Some(Change(records, diffs)) else None;
  }

  // ---- Slices -------------------------------------------------------------

  function SliceBatch(b: RecordBatch, offset: nat, length: nat): RecordBatch
    requires offset + length <= b.rows && BatchOk(b)
  {
    RecordBatch(b.schema, seq(|b.columns|, k requires 0 <= k < |b.columns| => Slice(b.columns[k], offset, length)),
                length)
  }

  datatype SliceResult = Sliced(change: Change) | Empty | OutOfBounds

  function TrySlice(c: Change, offset: nat, length: nat): SliceResult
    requires BatchOk(c.records) && |c.diffs| == c.records.rows
  {
    if length == 0 then Empty
    else if offset + length > MAX_USIZE || offset + length > c.records.rows then OutOfBounds
    else Sliced(Change(SliceBatch(c.records, offset, length), Window(c.diffs, offset, length)))
  }

  lemma SliceColumn(f: Field, a: Array, rows: nat, offset: nat, length: nat)
    requires ColumnOk(f, a, rows) && offset + length <= rows
    ensures ColumnOk(f, Slice(a, offset, length), length)
    ensures DecimalsFit(f, a) ==> DecimalsFit(f, Slice(a, offset, length))
  {
    SliceConforms(f, a, offset, length);
    if DecimalsFit(f, a) {
      forall d | d in Decimals(f, Slice(a, offset, length))
        ensures Fits(d)
      {
        SliceDecimals(f, a, offset, length, d);
      }
    }
  }

  /** Slicing succeeds exactly on a non-empty range inside the change, and the slice is valid
      although nothing was checked again. */
  lemma SliceIsValid(c: Change, offset: nat, length: nat)
    requires ValidChange(c) && c.records.rows <= MAX_USIZE
    ensures TrySlice(c, offset, length).Sliced? <==> length > 0 && offset + length <= c.records.rows
    ensures TrySlice(c, offset, length).Empty? <==> length == 0
    ensures TrySlice(c, offset, length).Sliced? ==> ValidChange(TrySlice(c, offset, length).change)
  {
    if TrySlice(c, offset, length).Sliced? {
      var s := TrySlice(c, offset, length).change;
      forall k | 0 <= k < |c.records.columns|
        ensures ColumnOk(s.records.schema.fields[k], s.records.columns[k], length)
        ensures DecimalsFit(s.records.schema.fields[k], s.records.columns[k])
      {
        SliceColumn(c.records.schema.fields[k], c.records.columns[k], c.records.rows, offset, length);
      }
    }
  }

  /** Row `j` of a slice is row `offset + j` of the change: the same difference, and the same cell in
      every column. */
  lemma SliceRows(c: Change, offset: nat, length: nat, j: nat, k: nat)
    requires ValidChange(c) && c.records.rows <= MAX_USIZE && offset + length <= c.records.rows && j < length
    requires k < |c.records.columns|
    ensures TrySlice(c, offset, length).Sliced?
    ensures var s := TrySlice(c, offset, length).change; var f := c.records.schema.fields[k];
      && s.records.schema == c.records.schema && s.records.rows == length && |s.diffs| == length
      && |s.records.columns| == |c.records.columns|
      && s.diffs[j] == c.diffs[offset + j]
      && Conforms(f, s.records.columns[k]) && Length(s.records.columns[k]) == length
      && CellAt(f, s.records.columns[k], j) == CellAt(f, c.records.columns[k], offset + j)
  {
    SliceIsValid(c, offset, length);
    var f := c.records.schema.fields[k];
    assert ColumnOk(f, c.records.columns[k], c.records.rows);
    SliceShows(f, c.records.columns[k], offset, length, j);
  }

  /** A slice of a slice is one slice. */
  lemma ChangeSlicesCompose(c: Change, offset: nat, length: nat, inner: nat, count: nat)
    requires ValidChange(c) && c.records.rows <= MAX_USIZE && offset + length <= c.records.rows && 0 < count
    requires inner + count <= length
    ensures var s := TrySlice(c, offset, length);
      s.Sliced? && ValidChange(s.change) && TrySlice(s.change, inner, count) == TrySlice(c, offset + inner, count)
  {
    SliceIsValid(c, offset, length);
    ComposeParts(c, TrySlice(c, offset, length).change, offset, length, inner, count);
  }

  lemma ComposeParts(c: Change, s: Change, offset: nat, length: nat, inner: nat, count: nat)
    requires BatchOk(c.records) && |c.diffs| == c.records.rows <= MAX_USIZE && offset + length <= c.records.rows
    requires 0 < count && inner + count <= length
    requires TrySlice(c, offset, length) == Sliced(s) && BatchOk(s.records) && |s.diffs| == s.records.rows
    ensures TrySlice(s, inner, count) == TrySlice(c, offset + inner, count)
  {
    BatchSlicesCompose(c.records, offset, length, inner, count);
    WindowOfWindow(c.diffs, offset, length, inner, count);
  }

  lemma BatchSlicesCompose(b: RecordBatch, offset: nat, length: nat, inner: nat, count: nat)
    requires BatchOk(b) && offset + length <= b.rows && inner + count <= length
    requires BatchOk(SliceBatch(b, offset, length))
    ensures SliceBatch(SliceBatch(b, offset, length), inner, count) == SliceBatch(b, offset + inner, count)
  {
    var left, right := SliceBatch(SliceBatch(b, offset, length), inner, count), SliceBatch(b, offset + inner, count);
    forall k | 0 <= k < |b.columns|
      ensures left.columns[k] == right.columns[k]
    {
      assert ColumnOk(b.schema.fields[k], b.columns[k], b.rows);
      SlicesCompose(b.schema.fields[k], b.columns[k], offset, length, inner, count);
    }
    assert left.columns == right.columns;
  }

  // ---- Projections --------------------------------------------------------

  /** Strictly increasing positions among `n` columns. */
  predicate SelectsColumns(indices: seq<nat>, n: nat)
  {
    Increasing(indices) && forall k :: 0 <= k < |indices| ==> indices[k] < n
  }

  function Pick<T>(xs: seq<T>, indices: seq<nat>): (r: seq<T>)
    requires forall k :: 0 <= k < |indices| ==> indices[k] < |xs|
    ensures |r| == |indices|
  {
    seq(|indices|, k requires 0 <= k < |indices| => xs[indices[k]])
  }

  datatype ChangeProjection = ChangeProjection(inputSchema: Schema, outputSchema: Schema, indices: seq<nat>)
  {
    predicate IsIdentity()
    {
      |indices| == |inputSchema.fields|
    }
  }

  ghost predicate ValidProjection(p: ChangeProjection)
  {
    && ValidSchema(p.inputSchema) && SelectsColumns(p.indices, |p.inputSchema.fields|)
    && p.outputSchema == Schema(Pick(p.inputSchema.fields, p.indices), p.inputSchema.metadata)
  }

  method NewProjection(schema: Schema, indices: seq<nat>) returns (r: Option<ChangeProjection>)
    ensures r.Some? <==> ValidSchema(schema) && SelectsColumns(indices, |schema.fields|)
    ensures r.Some? ==> ValidProjection(r.value) && r.value.inputSchema == schema && r.value.indices == indices
  {
    var ok := ValidateSchema(schema);
    if !ok {
      return None;
    }
    var previous: Option<nat> := None;
    for k := 0 to |indices|
      invariant SelectsColumns(indices[..k], |schema.fields|)
      invariant previous == if k == 0 then None else Some(indices[k - 1])
    {
      var current := indices[k];
      if current >= |schema.fields| || (previous.Some? && current <= previous.value) {
        assert k > 0 ==>
            indices[k - 1] < indices[k] || current >= |schema.fields| || !SelectsColumns(indices, |schema.fields|);
        return None;
      }
      SelectsMore(indices, k, |schema.fields|);
      previous := Some(current);
    }
    assert indices[..|indices|] == indices;
    r := Some(ChangeProjection(schema, Schema(Pick(schema.fields, indices), schema.metadata), indices));
  }

  lemma SelectsMore(indices: seq<nat>, k: nat, n: nat)
    requires k < |indices| && SelectsColumns(indices[..k], n) && indices[k] < n
    requires (k > 0 ==> indices[k - 1] < indices[k])
    ensures SelectsColumns(indices[..k + 1], n)
  {
    var more := indices[..k + 1];
    forall i, j | 0 <= i < j < |more|
      ensures more[i] < more[j]
    {
      assert i < k - 1 ==> indices[..k][i] < indices[..k][k - 1];
      assert j < k ==> indices[..k][i] < indices[..k][j];
    }
  }

  /** With strictly increasing indices in range, the length alone tells the identity. */
  lemma IdentityByLength(indices: seq<nat>, n: nat)
    requires SelectsColumns(indices, n)
    ensures |indices| <= n
    ensures |indices| == n <==> indices == seq(n, k => k)
  {
    forall k | 0 <= k < |indices|
      ensures k <= indices[k] <= n - (|indices| - k)
    {
      IncreasingAtLeast(indices, k);
      IncreasingAtMost(indices, n, k);
    }
    if |indices| > 0 {
      assert 0 <= indices[0] <= n - |indices|;
    }
  }

  function ProjectBatch(b: RecordBatch, indices: seq<nat>): RecordBatch
    requires BatchOk(b) && SelectsColumns(indices, |b.columns|)
  {
    RecordBatch(Schema(Pick(b.schema.fields, indices), b.schema.metadata), Pick(b.columns, indices), b.rows)
  }

  /** The source's projection, with its shortcut for the identity. None is a schema mismatch. */
  function TryProject(c: Change, p: ChangeProjection): Option<Change>
    requires BatchOk(c.records) && ValidProjection(p)
  {
    if p.inputSchema != c.records.schema then None
    else if p.IsIdentity() then Some(c)
    else Some(Change(ProjectBatch(c.records, p.indices), c.diffs))
  }

  /** The shortcut for the identity changes nothing. */
  lemma ProjectAlways(c: Change, p: ChangeProjection)
    requires BatchOk(c.records) && ValidProjection(p) && p.inputSchema == c.records.schema
    ensures TryProject(c, p) == Some(Change(ProjectBatch(c.records, p.indices), c.diffs))
  {
    if p.IsIdentity() {
      IdentityByLength(p.indices, |p.inputSchema.fields|);
      assert Pick(c.records.columns, p.indices) == c.records.columns;
      assert Pick(c.records.schema.fields, p.indices) == c.records.schema.fields;
    }
  }

  /** Column `k` of a projection is the column at index `k`, with its field; rows and differences stay. */
  lemma ProjectPicks(c: Change, p: ChangeProjection, k: nat)
    requires BatchOk(c.records) && ValidProjection(p) && p.inputSchema == c.records.schema && k < |p.indices|
    ensures var d := TryProject(c, p);
      && d.Some? && p.indices[k] < |c.records.columns|
      && d.value.records.rows == c.records.rows && d.value.diffs == c.diffs
      && |d.value.records.columns| == |d.value.records.schema.fields| == |p.indices|
      && d.value.records.columns[k] == c.records.columns[p.indices[k]]
      && d.value.records.schema.fields[k] == c.records.schema.fields[p.indices[k]]
      && d.value.records.schema.metadata == c.records.schema.metadata
  {
    ProjectAlways(c, p);
  }

  predicate AtMost(a: Totals, b: Totals)
  {
    a.fields <= b.fields && a.entries <= b.entries && a.text <= b.text
  }

  /** Fewer fields have smaller totals. */
  lemma {:induction false} SelectionSmaller(f: Field, g: Field, indices: seq<nat>, k: nat)
    requires f.dtype.StructOf? && g.dtype.StructOf? && SelectsColumns(indices, |f.dtype.fields|)
    requires g.dtype.fields == Pick(f.dtype.fields, indices) && k <= |indices|
    ensures AtMost(Below(g, k), Below(f, if k == 0 then 0 else indices[k - 1] + 1))
    decreases k
  {
    if k > 0 {
      var before := if k == 1 then 0 else indices[k - 2] + 1;
      SelectionSmaller(f, g, indices, k - 1);
      SelectedChild(f, g, indices, k - 1);
      assert before <= indices[k - 1];
      SelectionStep(f, g, before, indices[k - 1], k - 1);
    }
  }

  lemma SelectedChild(f: Field, g: Field, indices: seq<nat>, k: nat)
    requires f.dtype.StructOf? && g.dtype.StructOf? && SelectsColumns(indices, |f.dtype.fields|) && k < |indices|
    requires g.dtype.fields == Pick(f.dtype.fields, indices)
    ensures indices[k] < |f.Children()| && k < |g.Children()| && g.Children()[k] == f.Children()[indices[k]]
  {
  }

  lemma SelectionStep(f: Field, g: Field, before: nat, i: nat, k: nat)
    requires before <= i < |f.Children()| && k < |g.Children()| && g.Children()[k] == f.Children()[i]
    requires AtMost(Below(g, k), Below(f, before))
    ensures AtMost(Below(g, k + 1), Below(f, i + 1))
  {
    BelowGrows(f, before, i);
    assert Below(f, i + 1) == Add(Below(f, i), Whole(f.Children()[i]));
    assert Below(g, k + 1) == Add(Below(g, k), Whole(f.Children()[i]));
  }

  /** A projection of a valid schema is valid. */
  lemma ProjectedSchemaValid(s: Schema, indices: seq<nat>)
    requires ValidSchema(s) && SelectsColumns(indices, |s.fields|)
    ensures ValidSchema(Schema(Pick(s.fields, indices), s.metadata))
  {
    var t := Schema(Pick(s.fields, indices), s.metadata);
    ProjectedTotals(s, indices);
    forall k | 0 <= k < |t.fields|
      ensures LegalTree(t.fields[k]) && Depth(t.fields[k]) <= MAX_NESTING_DEPTH
    {
      assert LegalTree(s.fields[indices[k]]);
    }
    forall j, k
      ensures Differ(t.fields, j, k)
    {
      if 0 <= j < k < |t.fields| {
        assert Differ(s.fields, indices[j], indices[k]);
      }
    }
  }

  lemma ProjectedTotals(s: Schema, indices: seq<nat>)
    requires SelectsColumns(indices, |s.fields|)
    ensures AtMost(Below(Root(Schema(Pick(s.fields, indices), s.metadata)), |indices|), Below(Root(s), |s.fields|))
  {
    var m := |indices|;
    SelectionSmaller(Root(s), Root(Schema(Pick(s.fields, indices), s.metadata)), indices, m);
    BelowGrows(Root(s), if m == 0 then 0 else indices[m - 1] + 1, |s.fields|);
  }

  /** Every projection of a valid change is valid although nothing was checked again. */
  lemma ProjectIsValid(c: Change, p: ChangeProjection)
    requires ValidChange(c) && ValidProjection(p)
    ensures TryProject(c, p).Some? <==> p.inputSchema == c.records.schema
    ensures TryProject(c, p).Some? ==>
      ValidChange(TryProject(c, p).value) && TryProject(c, p).value.records.schema == p.outputSchema
  {
    if p.inputSchema == c.records.schema {
      ProjectAlways(c, p);
      ProjectedSchemaValid(c.records.schema, p.indices);
      var d := TryProject(c, p).value;
      forall k | 0 <= k < |p.indices|
        ensures ColumnOk(d.records.schema.fields[k], d.records.columns[k], d.records.rows)
        ensures DecimalsFit(d.records.schema.fields[k], d.records.columns[k])
      {
        assert DecimalsFit(c.records.schema.fields[p.indices[k]], c.records.columns[p.indices[k]]);
      }
    }
  }

  /** Slicing commutes with projecting. */
  lemma SliceCommutesWithProject(c: Change, p: ChangeProjection, offset: nat, length: nat)
    requires ValidChange(c) && c.records.rows <= MAX_USIZE && ValidProjection(p) && p.inputSchema == c.records.schema
    requires 0 < length && offset + length <= c.records.rows
    ensures var s, d := TrySlice(c, offset, length), TryProject(c, p);
      && s.Sliced? && ValidChange(s.change) && d.Some? && ValidChange(d.value)
      && TrySlice(d.value, offset, length).Sliced?
      && TryProject(s.change, p) == Some(TrySlice(d.value, offset, length).change)
  {
    SliceIsValid(c, offset, length);
    ProjectIsValid(c, p);
    var s, d := TrySlice(c, offset, length).change, TryProject(c, p).value;
    ProjectAlways(c, p);
    ProjectAlways(s, p);
    SliceIsValid(d, offset, length);
    assert ProjectBatch(s.records, p.indices).columns == SliceBatch(d.records, offset, length).columns;
  }

  // ---- The column fast path -----------------------------------------------

  /** A physical expression: a column reference, or any other one with its value on a batch. */
  datatype Physical = Column(index: nat) | Other(eval: RecordBatch -> Option<Array>)

  function EvaluatePhysical(e: Physical, b: RecordBatch): Option<Array>
  {
    match e
    case Column(index) => if index < |b.columns| then Some(b.columns[index]) else None
    case Other(eval) => eval(b)
  }

  /** The indices, if every expression is a column reference. */
  function ColumnIndices(es: seq<Physical>): Option<seq<nat>>
  {
    if es == [] then Some([])
    else
      var rest := ColumnIndices(es[..|es| - 1]);
      if rest.Some? && es[|es| - 1].Column? then Some(rest.value + [es[|es| - 1].index]) else None
  }

  lemma {:induction false} ColumnIndicesAre(es: seq<Physical>)
    ensures ColumnIndices(es).Some? <==> forall k :: 0 <= k < |es| ==> es[k].Column?
    ensures ColumnIndices(es).Some? ==>
      |ColumnIndices(es).value| == |es| && forall k :: 0 <= k < |es| ==> ColumnIndices(es).value[k] == es[k].index
  {
    if es != [] {
      ColumnIndicesAre(es[..|es| - 1]);
    }
  }

  datatype BoundProjection = BoundProjection(inputSchema: Schema, expressions: seq<Physical>, outputSchema: Schema,
                                             columns: Option<ChangeProjection>)

  /** Binds a projection, choosing the column path when it gives exactly the output schema. */
  method Bind(inputSchema: Schema, expressions: seq<Physical>, outputSchema: Schema) returns (b: BoundProjection)
    ensures b.inputSchema == inputSchema && b.outputSchema == outputSchema
    ensures b.columns.Some? <==>
      && ValidSchema(inputSchema)
      && ColumnIndices(expressions).Some?
      && SelectsColumns(ColumnIndices(expressions).value, |inputSchema.fields|)
      && outputSchema == Schema(Pick(inputSchema.fields, ColumnIndices(expressions).value), inputSchema.metadata)
    ensures b.columns.Some? ==>
      && ValidProjection(b.columns.value)
      && b.columns.value == ChangeProjection(inputSchema, outputSchema, ColumnIndices(expressions).value)
    ensures b.expressions == if b.columns.Some? then [] else expressions
  {
    var indices := ColumnIndices(expressions);
    var chosen: Option<ChangeProjection> := None;
    if indices.Some? {
      var projection := NewProjection(inputSchema, indices.value);
      if projection.Some? && projection.value.outputSchema == outputSchema {
        chosen := projection;
      }
    }
    b := BoundProjection(inputSchema, if chosen.Some? then [] else expressions, outputSchema, chosen);
  }

  datatype Evaluated =
    | Projected(change: Change)
    | InputSchemaMismatch
    | ExpressionFailed
    | BatchRejected
    | ChangeRejected

  /** What evaluating every expression, rebuilding the batch and validating the change gives. */
  ghost function GeneralPath(es: seq<Physical>, inputSchema: Schema, outputSchema: Schema, c: Change): Evaluated
  {
    if c.records.schema != inputSchema then InputSchemaMismatch
    else if exists k :: 0 <= k < |es| && EvaluatePhysical(es[k], c.records).None? then ExpressionFailed
    else
      var columns := seq(|es|, k requires 0 <= k < |es| => EvaluatePhysical(es[k], c.records).value);
      var rebuilt := Change(RecordBatch(outputSchema, columns, c.records.rows), c.diffs);
      if !BatchOk(rebuilt.records) then BatchRejected
      else if ValidChange(rebuilt) then Projected(rebuilt)
      else ChangeRejected
  }

  /** What the general path comes to: the first of four obstacles that there is, or the change whose
      column `k` is the value of expression `k`, with the rows and differences it had. */
  lemma GeneralPathMeans(es: seq<Physical>, inputSchema: Schema, outputSchema: Schema, c: Change)
    requires BatchOk(c.records)
    ensures var r := GeneralPath(es, inputSchema, outputSchema, c);
      && (r == InputSchemaMismatch <==> c.records.schema != inputSchema)
      && (r == ExpressionFailed <==> c.records.schema == inputSchema && exists k :: 0 <= k < |es| && Fails(es[k], c))
      && (r.Projected? ==>
        && r.change.diffs == c.diffs && r.change.records.rows == c.records.rows
        && r.change.records.schema == outputSchema && |r.change.records.columns| == |es|
        && (forall k :: 0 <= k < |es| ==> Gives(es[k], c, r.change.records.columns[k])))
      && (r == BatchRejected || r == ChangeRejected ==>
        c.records.schema == inputSchema && exists records ::
          && Rebuilt(es, outputSchema, c, records)
          && (r == BatchRejected <==> !BatchOk(records))
          && (r == ChangeRejected ==> BatchOk(records) && !SoundChange(records, c.diffs)))
  {
    if c.records.schema == inputSchema && !exists k :: 0 <= k < |es| && EvaluatePhysical(es[k], c.records).None? {
      var columns := seq(|es|, k requires 0 <= k < |es| => EvaluatePhysical(es[k], c.records).value);
      var records := RecordBatch(outputSchema, columns, c.records.rows);
      assert Rebuilt(es, outputSchema, c, records);
      if BatchOk(records) {
        SoundIff(records, c.diffs);
      }
    }
    assert forall k :: 0 <= k < |es| ==> (Fails(es[k], c) <==> EvaluatePhysical(es[k], c.records).None?);
  }

  /** A column reference gives the column at its index; any other expression gives what it evaluates to. */
  predicate Gives(e: Physical, c: Change, a: Array)
  {
    match e
    case Column(index) => index < |c.records.columns| && a == c.records.columns[index]
    case Other(eval) => eval(c.records) == Some(a)
  }

  predicate Fails(e: Physical, c: Change)
  {
    match e
    case Column(index) => index >= |c.records.columns|
    case Other(eval) => eval(c.records) == None
  }

  /** The batch with the values of the expressions as columns. */
  ghost predicate Rebuilt(es: seq<Physical>, outputSchema: Schema, c: Change, records: RecordBatch)
  {
    && records.schema == outputSchema && records.rows == c.records.rows && |records.columns| == |es|
    && forall k :: 0 <= k < |es| ==> Gives(es[k], c, records.columns[k])
  }

  /** The general path, expression by expression. */
  method EvaluateAll(es: seq<Physical>, inputSchema: Schema, outputSchema: Schema, c: Change) returns (r: Evaluated)
    requires ValidChange(c)
    ensures r == GeneralPath(es, inputSchema, outputSchema, c)
  {
    if c.records.schema != inputSchema {
      return InputSchemaMismatch;
    }
    var columns: seq<Array> := [];
    for k := 0 to |es|
      invariant |columns| == k && forall j :: 0 <= j < k ==> EvaluatePhysical(es[j], c.records) == Some(columns[j])
    {
      var value := EvaluatePhysical(es[k], c.records);
      if value.None? {
        return ExpressionFailed;
      }
      columns := columns + [value.value];
    }
    assert columns == seq(|es|, k requires 0 <= k < |es| => EvaluatePhysical(es[k], c.records).value);
    var records := RecordBatch(outputSchema, columns, c.records.rows);
    if !BatchOk(records) {
      return BatchRejected;
    }
    var change := TryNew(records, c.diffs);
    r := if change.Some? then Projected(change.value) else ChangeRejected;
  }

  /** Evaluates a bound projection by the path that was chosen. `es` are the expressions it was bound to. */
  method Evaluate(b: BoundProjection, c: Change, ghost es: seq<Physical>) returns (r: Evaluated)
    requires ValidChange(c)
    requires b.columns.None? ==> b.expressions == es
    requires b.columns.Some? ==> ValidProjection(b.columns.value) && ColumnIndices(es) == Some(b.columns.value.indices)
    requires b.columns.Some? ==>
      b.columns.value.inputSchema == b.inputSchema && b.columns.value.outputSchema == b.outputSchema
    ensures r == GeneralPath(es, b.inputSchema, b.outputSchema, c)
    ensures b.columns.Some? ==> r.Projected? || r == InputSchemaMismatch
  {
    if b.columns.Some? {
      FastPathIsGeneral(c, b.columns.value, es);
      var d := TryProject(c, b.columns.value);
      return if d.Some? then Projected(d.value) else InputSchemaMismatch;
    }
    r := EvaluateAll(b.expressions, b.inputSchema, b.outputSchema, c);
  }

  /** The column path returns, on every valid input, exactly what evaluating each expression and
      rebuilding the change returns. */
  lemma FastPathIsGeneral(c: Change, p: ChangeProjection, es: seq<Physical>)
    requires ValidChange(c) && ValidProjection(p) && ColumnIndices(es) == Some(p.indices)
    ensures GeneralPath(es, p.inputSchema, p.outputSchema, c)
        == if TryProject(c, p).Some? then Projected(TryProject(c, p).value) else InputSchemaMismatch
  {
    ColumnIndicesAre(es);
    if p.inputSchema == c.records.schema {
      ProjectAlways(c, p);
      ProjectIsValid(c, p);
      assert Pick(c.records.columns, p.indices)
          == seq(|es|, k requires 0 <= k < |es| => EvaluatePhysical(es[k], c.records).value);
    }
  }
}
