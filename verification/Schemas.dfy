/** Validation of record schemas: a recursive walk that charges three global budgets decides a
    declarative predicate on the whole tree. */
module Schemas {
  import opened Options
  import opened BigEndian

  const MAX_NESTING_DEPTH: nat := 60
  const MAX_SCHEMA_FIELDS: nat := 16_384
  const MAX_SCHEMA_METADATA_ENTRIES: nat := 49_152
  const MAX_SCHEMA_TEXT_BYTES: nat := 8 * 1024 * 1024

  /** "$dogpaddle." and "dogpaddle." */
  const RESERVED_FIELD_PREFIX: text := [36, 100, 111, 103, 112, 97, 100, 100, 108, 101, 46]
  const RESERVED_METADATA_PREFIX: text := [100, 111, 103, 112, 97, 100, 100, 108, 101, 46]

  /** UTF-8 bytes. */
  type text = seq<byte>

  datatype DataType =
    | Flat(code: nat)
    | Decimal128(precision: nat, scale: int)
    | Timestamp(unit: nat, timezone: Option<text>)
    | ListOf(child: Field)
    | StructOf(fields: seq<Field>)
    | Unsupported(kind: nat)

  datatype Entry = Entry(key: text, value: text)

  datatype Field = Field(name: text, dtype: DataType, nullable: bool, metadata: seq<Entry>)
  {
    function Children(): seq<Field>
    {
      match dtype
      case ListOf(child) => [child]
      case StructOf(fields) => fields
      case _ => []
    }

    predicate IsContainer()
    {
      dtype.ListOf? || dtype.StructOf?
    }
  }

  datatype Schema = Schema(fields: seq<Field>, metadata: seq<Entry>)

  // ---- The declarative predicate ------------------------------------------

  datatype Totals = Totals(fields: nat, entries: nat, text: nat)

  function Add(a: Totals, b: Totals): Totals
  {
    Totals(a.fields + b.fields, a.entries + b.entries, a.text + b.text)
  }

  predicate Within(t: Totals)
  {
    t.fields <= MAX_SCHEMA_FIELDS && t.entries <= MAX_SCHEMA_METADATA_ENTRIES && t.text <= MAX_SCHEMA_TEXT_BYTES
  }

  function MetadataText(m: seq<Entry>): nat
  {
    if m == [] then 0 else MetadataText(m[..|m| - 1]) + |m[|m| - 1].key| + |m[|m| - 1].value|
  }

  function Timezone(f: Field): nat
  {
    if f.dtype.Timestamp? && f.dtype.timezone.Some? then |f.dtype.timezone.value| else 0
  }

  /** What a field adds to the totals by itself. */
  function Own(f: Field): Totals
  {
    Totals(1, |f.metadata|, |f.name| + MetadataText(f.metadata) + Timezone(f))
  }

  /** The totals of a field and everything below it. */
  function Whole(f: Field): Totals
    decreases f, |f.Children()| + 1
  {
    Add(Own(f), Below(f, |f.Children()|))
  }

  /** The totals of the first `k` children. */
  function Below(f: Field, k: nat): Totals
    requires k <= |f.Children()|
    decreases f, k
  {
    if k == 0 then Totals(0, 0, 0) else Add(Below(f, k - 1), Whole(f.Children()[k - 1]))
  }

  predicate ValidDecimal(precision: nat, scale: int)
  {
    0 < precision <= 38 && (scale <= 0 || scale <= precision)
  }

  predicate LegalMetadata(m: seq<Entry>)
  {
    forall k :: 0 <= k < |m| ==> !(RESERVED_METADATA_PREFIX <= m[k].key)
  }

  /** No two fields share a name. */
  ghost predicate UniqueNames(fields: seq<Field>)
  {
    forall j, k :: Differ(fields, j, k)
  }

  ghost predicate Differ(fields: seq<Field>, j: int, k: int)
  {
    0 <= j < k < |fields| ==> fields[j].name != fields[k].name
  }

  /** Names, metadata, types and parameters of one field. */
  predicate LegalOwn(f: Field)
  {
    && !(RESERVED_FIELD_PREFIX <= f.name) && LegalMetadata(f.metadata)
    && (f.dtype.Decimal128? ==> ValidDecimal(f.dtype.precision, f.dtype.scale))
    && (f.dtype.Timestamp? && f.dtype.timezone.Some? ==> f.dtype.timezone.value != [])
    && !f.dtype.Unsupported?
  }

  /** A field and everything below it is legal, at any depth. */
  ghost predicate LegalTree(f: Field)
    decreases f
  {
    && LegalOwn(f) && (f.dtype.StructOf? ==> UniqueNames(f.dtype.fields))
    && forall k {:trigger LegalTree(f.Children()[k])} :: 0 <= k < |f.Children()| ==> LegalTree(f.Children()[k])
  }

  /** The number of nested lists and structs. */
  function Depth(f: Field): nat
    decreases f, |f.Children()| + 1
  {
    if f.IsContainer() then 1 + DepthBelow(f, |f.Children()|) else 0
  }

  function DepthBelow(f: Field, k: nat): nat
    requires k <= |f.Children()|
    decreases f, k
  {
    if k == 0 then 0
    else
      var rest, last := DepthBelow(f, k - 1), Depth(f.Children()[k - 1]);
      if rest < last then last else rest
  }

  /** The schema as one struct. */
  function Root(s: Schema): Field
  {
    Field([], StructOf(s.fields), false, s.metadata)
  }

  /** Every limit, every name and every type at once. */
  ghost predicate ValidSchema(s: Schema)
  {
    && Within(Totals(Below(Root(s), |s.fields|).fields, |s.metadata| + Below(Root(s), |s.fields|).entries,
                     MetadataText(s.metadata) + Below(Root(s), |s.fields|).text))
    && LegalMetadata(s.metadata) && UniqueNames(s.fields)
    && forall k :: 0 <= k < |s.fields| ==> LegalTree(s.fields[k]) && Depth(s.fields[k]) <= MAX_NESTING_DEPTH
  }

  // ---- The same, at a depth -----------------------------------------------

  ghost predicate LegalAt(f: Field, depth: nat)
  {
    LegalTree(f) && depth + Depth(f) <= MAX_NESTING_DEPTH
  }

  lemma {:induction false} DepthBelowMax(f: Field, n: nat, limit: int)
    requires n <= |f.Children()|
    ensures DepthBelow(f, n) <= limit <==> 0 <= limit && forall k :: 0 <= k < n ==> Depth(f.Children()[k]) <= limit
    decreases n
  {
    if n > 0 {
      DepthBelowMax(f, n - 1, limit);
    }
  }

  /** Legality at a depth, step by step. */
  lemma LegalStep(f: Field, depth: nat)
    requires depth <= MAX_NESTING_DEPTH
    ensures LegalAt(f, depth) <==>
      && LegalOwn(f)
      && (f.dtype.StructOf? ==> UniqueNames(f.dtype.fields))
      && (f.IsContainer() ==> depth + 1 <= MAX_NESTING_DEPTH)
      && forall k :: 0 <= k < |f.Children()| ==> LegalAt(f.Children()[k], depth + 1)
  {
    DepthBelowMax(f, |f.Children()|, MAX_NESTING_DEPTH - depth - 1);
  }

  lemma {:induction false} BelowGrows(f: Field, j: nat, k: nat)
    requires j <= k <= |f.Children()|
    ensures Below(f, j).fields <= Below(f, k).fields && Below(f, j).entries <= Below(f, k).entries
    ensures Below(f, j).text <= Below(f, k).text
    ensures Below(f, k).fields >= Below(f, j).fields + (k - j)
    decreases k
  {
    if j < k {
      BelowGrows(f, j, k - 1);
    }
  }

  // ---- The same, field by field --------------------------------------------

  /** The field reached from `f` by child positions, if there is one. */
  function Under(f: Field, path: seq<nat>): Option<Field>
    decreases |path|
  {
    if path == [] then Some(f)
    else if path[0] < |f.Children()| then Under(f.Children()[path[0]], path[1..])
    else None
  }

  /** A field and all the fields below it, parents first. */
  function AllFields(f: Field): seq<Field>
    decreases f, |f.Children()| + 1
  {
    [f] + AllBelow(f, |f.Children()|)
  }

  function AllBelow(f: Field, k: nat): seq<Field>
    requires k <= |f.Children()|
    decreases f, k
  {
    if k == 0 then [] else AllBelow(f, k - 1) + AllFields(f.Children()[k - 1])
  }

  function EntriesOf(fields: seq<Field>, n: nat): nat
    requires n <= |fields|
  {
    if n == 0 then 0 else EntriesOf(fields, n - 1) + |fields[n - 1].metadata|
  }

  /** The bytes of the keys and values of the first `n` entries. */
  function KeyValueBytes(m: seq<Entry>, n: nat): nat
    requires n <= |m|
  {
    if n == 0 then 0 else KeyValueBytes(m, n - 1) + |m[n - 1].key| + |m[n - 1].value|
  }

  /** The bytes of the names, metadata and timezones of the first `n` fields. */
  function TextOf(fields: seq<Field>, n: nat): nat
    requires n <= |fields|
  {
    if n == 0 then 0 else
      var f := fields[n - 1];
      TextOf(fields, n - 1) + |f.name| + KeyValueBytes(f.metadata, |f.metadata|)
      + if f.dtype.Timestamp? && f.dtype.timezone.Some? then |f.dtype.timezone.value| else 0
  }

  predicate StartsWith(bytes: text, prefix: string)
  {
    |prefix| <= |bytes| && forall k :: 0 <= k < |prefix| ==> bytes[k] == prefix[k] as int
  }

  /** What is asked of a field wherever it stands. */
  predicate Acceptable(f: Field)
  {
    && !StartsWith(f.name, "$dogpaddle.")
    && (forall k :: 0 <= k < |f.metadata| ==> !StartsWith(f.metadata[k].key, "dogpaddle."))
    && match f.dtype
       case Flat(_) => true
       case Decimal128(precision, scale) => 1 <= precision <= 38 && scale <= precision
       case Timestamp(_, timezone) => timezone != Some([])
       case ListOf(_) => true
       case StructOf(fields) => forall j, k :: 0 <= j < k < |fields| ==> fields[j].name != fields[k].name
       case Unsupported(_) => false
  }

  /** At most 60 lists and structs inside each other, 16384 fields, 49152 metadata entries and 8 MiB of
      text; no name or key of the runtime, no name twice among siblings, and no type out of range. */
  ghost predicate Accepted(s: Schema)
  {
    var root := Field([], StructOf(s.fields), false, s.metadata);
    var all := AllBelow(root, |s.fields|);
    && |all| <= 16_384
    && |s.metadata| + EntriesOf(all, |all|) <= 49_152
    && KeyValueBytes(s.metadata, |s.metadata|) + TextOf(all, |all|) <= 8_388_608
    && EveryField(s)
  }

  ghost predicate EveryField(s: Schema)
  {
    var root := Field([], StructOf(s.fields), false, s.metadata);
    forall path :: Under(root, path).Some? ==> FieldOk(Under(root, path).value, path)
  }

  predicate FieldOk(f: Field, path: seq<nat>)
  {
    Acceptable(f) && (f.dtype.ListOf? || f.dtype.StructOf? ==> |path| <= 60)
  }

  lemma PrefixIs(bytes: text, prefix: string, codes: text)
    requires |codes| == |prefix| && forall k :: 0 <= k < |prefix| ==> codes[k] == prefix[k] as int
    ensures codes <= bytes <==> StartsWith(bytes, prefix)
  {
    if StartsWith(bytes, prefix) {
      assert forall k :: 0 <= k < |codes| ==> bytes[k] == codes[k];
    }
  }

  lemma ReservedPrefixes(bytes: text)
    ensures RESERVED_FIELD_PREFIX <= bytes <==> StartsWith(bytes, "$dogpaddle.")
    ensures RESERVED_METADATA_PREFIX <= bytes <==> StartsWith(bytes, "dogpaddle.")
  {
    PrefixIs(bytes, "$dogpaddle.", RESERVED_FIELD_PREFIX);
    PrefixIs(bytes, "dogpaddle.", RESERVED_METADATA_PREFIX);
  }

  lemma UniqueIff(fields: seq<Field>)
    ensures UniqueNames(fields) <==> forall j, k :: 0 <= j < k < |fields| ==> fields[j].name != fields[k].name
  {
    if forall j, k :: 0 <= j < k < |fields| ==> fields[j].name != fields[k].name {
      forall j, k
        ensures Differ(fields, j, k)
      {
      }
    }
    if UniqueNames(fields) {
      forall j, k | 0 <= j < k < |fields|
        ensures fields[j].name != fields[k].name
      {
        assert Differ(fields, j, k);
      }
    }
  }

  lemma AcceptableIff(f: Field)
    ensures Acceptable(f) <==> LegalOwn(f) && (f.dtype.StructOf? ==> UniqueNames(f.dtype.fields))
  {
    ReservedPrefixes(f.name);
    forall k | 0 <= k < |f.metadata|
      ensures RESERVED_METADATA_PREFIX <= f.metadata[k].key <==> StartsWith(f.metadata[k].key, "dogpaddle.")
    {
      ReservedPrefixes(f.metadata[k].key);
    }
    if f.dtype.StructOf? {
      UniqueIff(f.dtype.fields);
    }
  }

  /** The field at `path` is acceptable, and shallow enough `depth` levels further down. */
  ghost predicate FineAt(f: Field, path: seq<nat>, depth: nat)
  {
    Under(f, path).Some? ==>
      var g := Under(f, path).value;
      Acceptable(g) && (g.IsContainer() ==> depth + |path| + 1 <= MAX_NESTING_DEPTH)
  }

  lemma UnderChild(f: Field, k: nat, path: seq<nat>)
    requires k < |f.Children()|
    ensures Under(f, [k] + path) == Under(f.Children()[k], path)
  {
    assert ([k] + path)[1..] == path;
  }

  /** A tree is legal at a depth exactly when every field in it is. */
  lemma {:induction false} LegalIff(f: Field, depth: nat)
    requires depth <= MAX_NESTING_DEPTH
    ensures LegalAt(f, depth) <==> forall path :: FineAt(f, path, depth)
    decreases f
  {
    LegalStep(f, depth);
    AcceptableIff(f);
    if forall path :: FineAt(f, path, depth) {
      assert FineAt(f, [], depth);
      forall k | 0 <= k < |f.Children()|
        ensures LegalAt(f.Children()[k], depth + 1)
      {
        var child, next := f.Children()[k], depth + 1;
        forall path
          ensures FineAt(child, path, next)
        {
          UnderChild(f, k, path);
          assert FineAt(f, [k] + path, depth);
        }
        LegalIff(child, next);
      }
    }
    if LegalAt(f, depth) {
      forall path
        ensures FineAt(f, path, depth)
      {
        if path != [] && path[0] < |f.Children()| {
          LegalIff(f.Children()[path[0]], depth + 1);
          assert FineAt(f.Children()[path[0]], path[1..], depth + 1);
        }
      }
    }
  }

  lemma {:induction false} MetadataIs(m: seq<Entry>, n: nat)
    requires n <= |m|
    ensures MetadataText(m[..n]) == KeyValueBytes(m, n)
  {
    if n > 0 {
      MetadataIs(m, n - 1);
      assert m[..n][..n - 1] == m[..n - 1];
    }
  }

  lemma {:induction false} SumsConcat(a: seq<Field>, b: seq<Field>, n: nat)
    requires n <= |b|
    ensures EntriesOf(a + b, |a| + n) == EntriesOf(a, |a|) + EntriesOf(b, n)
    ensures TextOf(a + b, |a| + n) == TextOf(a, |a|) + TextOf(b, n)
  {
    if n > 0 {
      SumsConcat(a, b, n - 1);
    } else {
      SumsPrefix(a, b, |a|);
    }
  }

  lemma {:induction false} SumsPrefix(a: seq<Field>, b: seq<Field>, n: nat)
    requires n <= |a|
    ensures EntriesOf(a + b, n) == EntriesOf(a, n) && TextOf(a + b, n) == TextOf(a, n)
  {
    if n > 0 {
      SumsPrefix(a, b, n - 1);
    }
  }

  function TotalsOf(fields: seq<Field>): Totals
  {
    Totals(|fields|, EntriesOf(fields, |fields|), TextOf(fields, |fields|))
  }

  /** The totals of a tree are those of its fields. */
  lemma {:induction false} WholeIs(f: Field)
    ensures Whole(f) == TotalsOf(AllFields(f))
    decreases f, |f.Children()| + 1
  {
    BelowIs(f, |f.Children()|);
    OwnIs(f);
    SumsConcat([f], AllBelow(f, |f.Children()|), |AllBelow(f, |f.Children()|)|);
  }

  lemma OwnIs(f: Field)
    ensures Own(f) == TotalsOf([f])
  {
    MetadataIs(f.metadata, |f.metadata|);
    assert f.metadata[..|f.metadata|] == f.metadata;
    assert EntriesOf([f], 0) == 0 && TextOf([f], 0) == 0;
  }

  lemma {:induction false} BelowIs(f: Field, k: nat)
    requires k <= |f.Children()|
    ensures Below(f, k) == TotalsOf(AllBelow(f, k))
    decreases f, k
  {
    if k > 0 {
      BelowIs(f, k - 1);
      WholeIs(f.Children()[k - 1]);
      SumsConcat(AllBelow(f, k - 1), AllFields(f.Children()[k - 1]), |AllFields(f.Children()[k - 1])|);
    }
  }

  /** The trees of the columns are legal and shallow enough, and their names unique. */
  ghost predicate EveryTree(s: Schema)
  {
    && LegalMetadata(s.metadata) && UniqueNames(s.fields)
    && forall k :: 0 <= k < |s.fields| ==> LegalAt(s.fields[k], 0)
  }

  lemma TreesFromFields(s: Schema)
    requires EveryField(s)
    ensures EveryTree(s)
  {
    var root := Root(s);
    assert Under(root, []) == Some(root);
    AcceptableIff(root);
    forall k | 0 <= k < |s.fields|
      ensures LegalAt(s.fields[k], 0)
    {
      var child := s.fields[k];
      forall path
        ensures FineAt(child, path, 0)
      {
        UnderChild(root, k, path);
        assert Under(root, [k] + path) == Under(child, path);
      }
      LegalIff(child, 0);
    }
  }

  lemma RootAcceptable(s: Schema)
    requires EveryTree(s)
    ensures Acceptable(Root(s))
  {
    ReservedPrefixes([]);
    AcceptableIff(Root(s));
  }

  lemma FieldsFromTrees(s: Schema)
    requires EveryTree(s)
    ensures EveryField(s)
  {
    var root := Root(s);
    RootAcceptable(s);
    forall path | Under(root, path).Some?
      ensures FieldOk(Under(root, path).value, path)
    {
      if path != [] {
        LegalIff(s.fields[path[0]], 0);
        assert FineAt(s.fields[path[0]], path[1..], 0);
      }
    }
  }

  lemma ValidParts(s: Schema)
    ensures ValidSchema(s) <==>
      && EveryTree(s)
      && Within(Totals(Below(Root(s), |s.fields|).fields, |s.metadata| + Below(Root(s), |s.fields|).entries,
                       MetadataText(s.metadata) + Below(Root(s), |s.fields|).text))
  {
  }

  /** The whole predicate, field by field. */
  lemma ValidIffAccepted(s: Schema)
    ensures ValidSchema(s) <==> Accepted(s)
  {
    ValidParts(s);
    BelowIs(Root(s), |s.fields|);
    MetadataIs(s.metadata, |s.metadata|);
    assert s.metadata[..|s.metadata|] == s.metadata;
    if EveryTree(s) {
      FieldsFromTrees(s);
    }
    if EveryField(s) {
      TreesFromFields(s);
    }
  }

  // ---- The walk -----------------------------------------------------------

  class SchemaBudget {
    var fields: nat
    var metadataEntries: nat
    var textBytes: nat

    ghost function Total(): Totals
      reads this
    {
      Totals(fields, metadataEntries, textBytes)
    }

    ghost predicate Valid()
      reads this
    {
      Within(Total())
    }

    constructor ()
      ensures Valid() && Total() == Totals(0, 0, 0)
    {
      fields, metadataEntries, textBytes := 0, 0, 0;
    }

    method ChargeField() returns (ok: bool)
      requires Valid()
      modifies this
      ensures Valid()
      ensures ok <==> old(fields) + 1 <= MAX_SCHEMA_FIELDS
      ensures ok ==> Total() == Add(old(Total()), Totals(1, 0, 0))
    {
      ok := fields + 1 <= MAX_SCHEMA_FIELDS;
      if ok { fields := fields + 1; }
    }

    method ChargeText(n: nat) returns (ok: bool)
      requires Valid()
      modifies this
      ensures Valid()
      ensures ok <==> old(textBytes) + n <= MAX_SCHEMA_TEXT_BYTES
      ensures ok ==> Total() == Add(old(Total()), Totals(0, 0, n))
    {
      ok := textBytes + n <= MAX_SCHEMA_TEXT_BYTES;
      if ok { textBytes := textBytes + n; }
    }

    method ChargeEntries(n: nat) returns (ok: bool)
      requires Valid()
      modifies this
      ensures Valid()
      ensures ok <==> old(metadataEntries) + n <= MAX_SCHEMA_METADATA_ENTRIES
      ensures ok ==> Total() == Add(old(Total()), Totals(0, n, 0))
    {
      ok := metadataEntries + n <= MAX_SCHEMA_METADATA_ENTRIES;
      if ok { metadataEntries := metadataEntries + n; }
    }

    /** Charges every entry, then looks for a reserved key. */
    method ValidateMetadata(m: seq<Entry>) returns (ok: bool)
      requires Valid()
      modifies this
      ensures Valid()
      ensures ok <==> Within(Add(old(Total()), Totals(0, |m|, MetadataText(m)))) && LegalMetadata(m)
      ensures ok ==> Total() == Add(old(Total()), Totals(0, |m|, MetadataText(m)))
    {
      ok := ChargeEntries(|m|);
      if !ok {
        return false;
      }
      for k := 0 to |m|
        invariant Valid() && Total() == Add(old(Total()), Totals(0, |m|, MetadataText(m[..k])))
      {
        assert m[..k + 1][..k] == m[..k];
        MetadataGrows(m, k + 1);
        ok := ChargeText(|m[k].key|);
        if ok {
          ok := ChargeText(|m[k].value|);
        }
        if !ok {
          return false;
        }
      }
      assert m[..|m|] == m;
      ok := LegalMetadata(m);
    }

    /** The checks and charges of one field by itself. */
    method ValidateOwn(f: Field) returns (ok: bool)
      requires Valid()
      modifies this
      ensures Valid()
      ensures ok <==> Within(Add(old(Total()), Own(f))) && LegalOwn(f)
      ensures ok ==> Total() == Add(old(Total()), Own(f))
    {
      ok := ChargeField();
      if ok {
        ok := ChargeText(|f.name|);
      }
      if !ok || RESERVED_FIELD_PREFIX <= f.name {
        return false;
      }
      ok := ValidateMetadata(f.metadata);
      if !ok || (f.dtype.Decimal128? && !ValidDecimal(f.dtype.precision, f.dtype.scale)) {
        return false;
      }
      if f.dtype.Timestamp? && f.dtype.timezone.Some? {
        ok := ChargeText(|f.dtype.timezone.value|);
        if !ok || f.dtype.timezone.value == [] {
          return false;
        }
      }
      ok := !f.dtype.Unsupported?;
    }
  }

  lemma {:induction false} MetadataGrows(m: seq<Entry>, k: nat)
    requires k <= |m|
    ensures MetadataText(m[..k]) <= MetadataText(m)
    decreases |m|
  {
    if k < |m| {
      assert m[..|m| - 1][..k] == m[..k];
      MetadataGrows(m[..|m| - 1], k);
    } else {
      assert m[..k] == m;
    }
  }

  /** Validates a field and everything below it. */
  method ValidateField(budget: SchemaBudget, f: Field, depth: nat) returns (ok: bool)
    requires budget.Valid() && depth <= MAX_NESTING_DEPTH
    modifies budget
    ensures budget.Valid()
    ensures ok <==> Within(Add(old(budget.Total()), Whole(f))) && LegalAt(f, depth)
    ensures ok ==> budget.Total() == Add(old(budget.Total()), Whole(f))
    decreases f, 1
  {
    LegalStep(f, depth);
    assert f.Children()[..|f.Children()|] == f.Children();
    ok := budget.ValidateOwn(f);
    if !ok {
      return false;
    }
    if !f.IsContainer() {
      return true;
    }
    if depth + 1 > MAX_NESTING_DEPTH {
      return false;
    }
    ok := ValidateChildren(budget, f, depth + 1);
  }

  /** The first `k` children are legal, and in a struct their names are unique. */
  ghost predicate LegalBelow(f: Field, depth: nat, k: nat)
    requires k <= |f.Children()|
  {
    && (f.dtype.StructOf? ==> UniqueNames(f.Children()[..k]))
    && forall j :: 0 <= j < k ==> LegalAt(f.Children()[j], depth)
  }

  predicate Within'(t: Totals, f: Field, k: nat)
    requires k <= |f.Children()|
  {
    Within(Add(t, Below(f, k)))
  }

  lemma Grows(t: Totals, f: Field, k: nat)
    requires k < |f.Children()|
    ensures Add(t, Below(f, k + 1)) == Add(Add(t, Below(f, k)), Whole(f.Children()[k]))
    ensures Within'(t, f, |f.Children()|) ==> Within'(t, f, k + 1)
  {
    BelowGrows(f, k + 1, |f.Children()|);
  }

  ghost function FirstNames(fields: seq<Field>, k: nat): set<text>
    requires k <= |fields|
  {
    set j | 0 <= j < k :: fields[j].name
  }

  lemma UniqueMore(fields: seq<Field>, k: nat, names: set<text>)
    requires k < |fields| && UniqueNames(fields[..k]) && names == FirstNames(fields, k)
    ensures UniqueNames(fields[..k + 1]) <==> fields[k].name !in names
    ensures names + {fields[k].name} == FirstNames(fields, k + 1)
  {
    var less, more := fields[..k], fields[..k + 1];
    if fields[k].name in names {
      var j :| 0 <= j < k && fields[j].name == fields[k].name;
      assert !Differ(more, j, k);
    } else {
      forall i, j
        ensures Differ(more, i, j)
      {
        assert Differ(less, i, j);
      }
    }
  }

  /** A repeated name among the first fields is one among all of them. */
  lemma UniqueAll(fields: seq<Field>, k: nat)
    requires k <= |fields|
    ensures UniqueNames(fields) ==> UniqueNames(fields[..k])
  {
    if UniqueNames(fields) {
      forall i, j
        ensures Differ(fields[..k], i, j)
      {
        assert Differ(fields, i, j);
      }
    }
  }

  lemma Beginning(t: Totals, f: Field, depth: nat)
    ensures Add(t, Below(f, 0)) == t && LegalBelow(f, depth, 0)
    ensures t.fields + |f.Children()| > MAX_SCHEMA_FIELDS ==> !Within'(t, f, |f.Children()|)
  {
    BelowGrows(f, 0, |f.Children()|);
  }

  /** Validates the child of a list, or the fields of a struct with their names. */
  method ValidateChildren(budget: SchemaBudget, f: Field, depth: nat) returns (ok: bool)
    requires budget.Valid() && depth <= MAX_NESTING_DEPTH && f.IsContainer()
    modifies budget
    ensures budget.Valid()
    ensures ok <==> Within'(old(budget.Total()), f, |f.Children()|) && LegalBelow(f, depth, |f.Children()|)
    ensures ok ==> budget.Total() == Add(old(budget.Total()), Below(f, |f.Children()|))
    decreases f, 0, 1
  {
    var fields := f.Children();
    ghost var start := budget.Total();
    // The early count never refuses what the walk would accept: every field counts at least one.
    Beginning(start, f, depth);
    if f.dtype.StructOf? && budget.fields + |fields| > MAX_SCHEMA_FIELDS {
      return false;
    }
    var names: set<text> := {};
    for k := 0 to |fields|
      invariant budget.Valid() && budget.Total() == Add(start, Below(f, k)) && LegalBelow(f, depth, k)
      invariant names == FirstNames(fields, k)
    {
      ok := ValidateNext(budget, f, k, names, depth, start);
      if !ok {
        return false;
      }
      names := names + {fields[k].name};
    }
    ok := true;
  }

  method ValidateNext(budget: SchemaBudget, f: Field, k: nat, names: set<text>, depth: nat, ghost start: Totals)
    returns (ok: bool)
    requires budget.Valid() && depth <= MAX_NESTING_DEPTH && f.IsContainer() && k < |f.Children()|
    requires budget.Total() == Add(start, Below(f, k)) && LegalBelow(f, depth, k)
    requires names == FirstNames(f.Children(), k)
    modifies budget
    ensures budget.Valid()
    ensures ok ==>
      && budget.Total() == Add(start, Below(f, k + 1))
      && LegalBelow(f, depth, k + 1)
      && names + {f.Children()[k].name} == FirstNames(f.Children(), k + 1)
    ensures !ok ==> !(Within'(start, f, |f.Children()|) && LegalBelow(f, depth, |f.Children()|))
    decreases f, 0, 0
  {
    var fields := f.Children();
    Grows(start, f, k);
    assert fields[..|fields|] == fields;
    if f.dtype.StructOf? {
      UniqueMore(fields, k, names);
      UniqueAll(fields, k + 1);
      if fields[k].name in names {
        return false;
      }
    }
    ok := ValidateField(budget, fields[k], depth);
  }

  /** The walk over the whole schema. */
  method DecideSchema(s: Schema) returns (ok: bool)
    ensures ok <==> ValidSchema(s)
  {
    var budget := new SchemaBudget();
    assert s.fields[..|s.fields|] == s.fields;
    ok := budget.ValidateMetadata(s.metadata);
    if ok {
      ok := ValidateChildren(budget, Root(s), 0);
    }
  }

  /** Decides exactly the declarative predicate. */
  method ValidateSchema(s: Schema) returns (ok: bool)
    ensures ok <==> ValidSchema(s)
    ensures ok <==> Accepted(s)
  {
    ok := DecideSchema(s);
    ValidIffAccepted(s);
  }
}
