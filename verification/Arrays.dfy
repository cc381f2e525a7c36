/** Arrays over shared buffers: a slice is a window, and its decimals are among the original's. */
module Arrays {
  import opened Options
  import opened Sequences
  import opened Schemas

  /** A window of slots. A list keeps its whole child array and a window of offsets into it. */
  datatype Array =
    | Values(slots: seq<Option<int>>)
    | Lists(valid: seq<bool>, offsets: seq<nat>, values: Array)
    | Structs(valid: seq<bool>, columns: seq<Array>)

  function Length(a: Array): nat
  {
    if a.Values? then |a.slots| else |a.valid|
  }

  predicate Ascending(offsets: seq<nat>)
  {
    forall i, j :: 0 <= i <= j < |offsets| ==> InOrder(offsets, i, j)
  }

  predicate InOrder(offsets: seq<nat>, i: nat, j: nat)
  {
    i <= j < |offsets| ==> offsets[i] <= offsets[j]
  }

  /** The array has the physical form of the field's type. */
  predicate Conforms(f: Field, a: Array)
    decreases f
  {
    match f.dtype
    case ListOf(child) =>
      a.Lists? && |a.offsets| == |a.valid| + 1
      && Ascending(a.offsets) && a.offsets[|a.valid|] <= Length(a.values) && Conforms(child, a.values)
    case StructOf(fields) =>
      a.Structs? && |a.columns| == |fields| && forall k {:trigger Conforms(fields[k], a.columns[k])} ::
          0 <= k < |fields| ==> Length(a.columns[k]) == |a.valid| && Conforms(fields[k], a.columns[k])
    case _ => a.Values?
  }

  function Slice(a: Array, offset: nat, length: nat): (r: Array)
    requires offset + length <= Length(a)
    decreases a
  {
    match a
    case Values(slots) => Values(Window(slots, offset, length))
    case Lists(valid, offsets, values) =>
      Lists(Window(valid, offset, length),
            if offset + length < |offsets| then Window(offsets, offset, length + 1) else [], values)
    case Structs(valid, columns) =>
      Structs(Window(valid, offset, length),
              seq(|columns|, k requires 0 <= k < |columns| =>
                  if offset + length <= Length(columns[k]) then Slice(columns[k], offset, length)
                  else columns[k]))
  }

  lemma SliceOfList(a: Array, offset: nat, length: nat)
    requires a.Lists? && |a.offsets| == |a.valid| + 1 && Ascending(a.offsets) && offset + length <= |a.valid|
    ensures var b := Slice(a, offset, length);
      && b == Lists(Window(a.valid, offset, length), Window(a.offsets, offset, length + 1), a.values)
      && b.offsets[0] == a.offsets[offset] && b.offsets[length] == a.offsets[offset + length] && Ascending(b.offsets)
  {
    var b := Slice(a, offset, length);
    forall i, j | 0 <= i <= j < |b.offsets|
      ensures InOrder(b.offsets, i, j)
    {
      assert InOrder(a.offsets, offset + i, offset + j);
    }
  }

  lemma {:induction false} SliceConforms(f: Field, a: Array, offset: nat, length: nat)
    requires Conforms(f, a) && offset + length <= Length(a)
    ensures Conforms(f, Slice(a, offset, length)) && Length(Slice(a, offset, length)) == length
    decreases f
  {
    if f.dtype.ListOf? {
      SliceOfList(a, offset, length);
      assert InOrder(a.offsets, offset + length, |a.valid|);
    }
    if f.dtype.StructOf? {
      forall k | 0 <= k < |f.dtype.fields|
        ensures Length(Slice(a, offset, length).columns[k]) == length
        ensures Conforms(f.dtype.fields[k], Slice(a, offset, length).columns[k])
      {
        SliceConforms(f.dtype.fields[k], a.columns[k], offset, length);
      }
    }
  }

  /** A slice of a slice is one slice. */
  lemma {:induction false} SlicesCompose(f: Field, a: Array, offset: nat, length: nat, inner: nat, count: nat)
    requires Conforms(f, a) && offset + length <= Length(a) && inner + count <= length
    ensures Length(Slice(a, offset, length)) == length
    ensures Slice(Slice(a, offset, length), inner, count) == Slice(a, offset + inner, count)
    decreases f, 1
  {
    var b := Slice(a, offset, length);
    match f.dtype
    case ListOf(_) => WindowsCompose(a.valid, a.offsets, offset, length, inner, count);
    case StructOf(fields) =>
      WindowOfWindow(a.valid, offset, length, inner, count);
      ColumnsCompose(f, fields, a, offset, length, inner, count);
    case _ => WindowOfWindow(a.slots, offset, length, inner, count);
  }

  lemma {:induction false} ColumnsCompose(f: Field, fields: seq<Field>, a: Array, offset: nat, length: nat, inner: nat,
                                          count: nat)
    requires f.dtype == StructOf(fields) && Conforms(f, a) && offset + length <= Length(a) && inner + count <= length
    ensures Length(Slice(a, offset, length)) == length
    ensures Slice(Slice(a, offset, length), inner, count).columns == Slice(a, offset + inner, count).columns
    decreases f, 0
  {
    var left, right := Slice(Slice(a, offset, length), inner, count), Slice(a, offset + inner, count);
    forall k | 0 <= k < |fields|
      ensures left.columns[k] == right.columns[k]
    {
      SlicesCompose(fields[k], a.columns[k], offset, length, inner, count);
    }
  }

  lemma WindowsCompose(valid: seq<bool>, offsets: seq<nat>, offset: nat, length: nat, inner: nat, count: nat)
    requires offset + length <= |valid| && |offsets| == |valid| + 1 && inner + count <= length
    ensures Window(Window(valid, offset, length), inner, count) == Window(valid, offset + inner, count)
    ensures Window(Window(offsets, offset, length + 1), inner, count + 1) == Window(offsets, offset + inner, count + 1)
  {
    WindowOfWindow(valid, offset, length, inner, count);
    WindowOfWindow(offsets, offset, length + 1, inner, count + 1);
  }

  // ---- What an array shows --------------------------------------------------

  /** What stands in one slot: a value or none, the items of a list, or the fields of a struct - also
      under a slot that is not valid. */
  datatype Cell = Leaf(slot: Option<int>) | Items(valid: bool, items: seq<Cell>) | Parts(valid: bool, parts: seq<Cell>)

  function CellAt(f: Field, a: Array, k: nat): Cell
    requires Conforms(f, a) && k < Length(a)
    decreases f
  {
    match f.dtype
    case ListOf(child) =>
      assert InOrder(a.offsets, k, k + 1) && InOrder(a.offsets, k + 1, |a.valid|);
      Items(a.valid[k], seq(a.offsets[k + 1] - a.offsets[k], j requires 0 <= j < a.offsets[k + 1] - a.offsets[k] =>
              CellAt(child, a.values, a.offsets[k] + j)))
    case StructOf(fields) =>
      Parts(a.valid[k], seq(|fields|, i requires 0 <= i < |fields| => CellAt(fields[i], a.columns[i], k)))
    case _ => Leaf(a.slots[k])
  }

  /** Slot `k` of a slice shows what slot `offset + k` of the original shows. */
  lemma {:induction false} SliceShows(f: Field, a: Array, offset: nat, length: nat, k: nat)
    requires Conforms(f, a) && offset + length <= Length(a) && k < length
    ensures Conforms(f, Slice(a, offset, length)) && Length(Slice(a, offset, length)) == length
    ensures CellAt(f, Slice(a, offset, length), k) == CellAt(f, a, offset + k)
    decreases f
  {
    SliceConforms(f, a, offset, length);
    match f.dtype
    case ListOf(_) => SliceOfList(a, offset, length);
    case StructOf(fields) =>
      var left, right := CellAt(f, Slice(a, offset, length), k), CellAt(f, a, offset + k);
      forall i | 0 <= i < |fields|
        ensures left.parts[i] == right.parts[i]
      {
        SliceShows(fields[i], a.columns[i], offset, length, k);
      }
      assert left.parts == right.parts;
    case _ =>
  }

  // ---- Decimals -----------------------------------------------------------

  function Power10(n: nat): (p: nat)
    ensures p > 0
  {
    if n == 0 then 1 else 10 * Power10(n - 1)
  }

  lemma {:induction false} Power10Add(a: nat, b: nat)
    ensures Power10(a + b) == Power10(a) * Power10(b)
    decreases b
  {
    if b > 0 {
      Power10Add(a, b - 1);
    }
  }

  /** The bound of every legal precision is a 128-bit signed integer. */
  lemma PrecisionFits(precision: nat)
    requires precision <= 38
    ensures Power10(precision) <= 100000000000000000000000000000000000000 < 0x8000_0000_0000_0000_0000_0000_0000_0000
  {
    Power10Of38();
    Power10Add(precision, 38 - precision);
    GrowsBy(Power10(precision), Power10(38 - precision));
  }

  lemma Power10Of8()
    ensures Power10(4) == 10000 && Power10(8) == 100000000
  {
    assert Power10(1) == 10 && Power10(2) == 100 && Power10(3) == 1000;
    Power10Add(4, 4);
  }

  lemma Power10Of19()
    ensures Power10(19) == 10000000000000000000
  {
    Power10Of8();
    Power10Add(8, 8);
    assert Power10(17) == 100000000000000000;
    assert Power10(18) == 1000000000000000000;
  }

  lemma Power10Of38()
    ensures Power10(38) == 100000000000000000000000000000000000000
  {
    Power10Of19();
    Power10Add(19, 19);
  }

  lemma GrowsBy(a: nat, b: nat)
    requires b > 0
    ensures a <= a * b
  {
  }

  /** A non-null decimal slot and the precision of its field. */
  datatype Decimal = Decimal(precision: nat, value: int)

  predicate Fits(d: Decimal)
  {
    0 - Power10(d.precision) < d.value < Power10(d.precision)
  }

  function SlotDecimals(precision: nat, slots: seq<Option<int>>): seq<Decimal>
  {
    if slots == [] then [] else
      SlotDecimals(precision, slots[..|slots| - 1])
      + if slots[|slots| - 1].Some? then [Decimal(precision, slots[|slots| - 1].value)] else []
  }

  /** The child slots between the first and the last offset of the window. */
  function Child(child: Field, a: Array): Array
    requires a.Lists? && |a.offsets| == |a.valid| + 1 && Ascending(a.offsets)
    requires a.offsets[|a.valid|] <= Length(a.values)
  {
    assert InOrder(a.offsets, 0, |a.valid|);
    Slice(a.values, a.offsets[0], a.offsets[|a.valid|] - a.offsets[0])
  }

  /** Every non-null decimal slot inside the window, also under NULL parents. */
  function Decimals(f: Field, a: Array): seq<Decimal>
    requires Conforms(f, a)
    decreases f, |f.Children()| + 1
  {
    match f.dtype
    case Decimal128(precision, _) => SlotDecimals(precision, a.slots)
    case ListOf(child) =>
      assert InOrder(a.offsets, 0, |a.valid|);
      SliceConforms(child, a.values, a.offsets[0], a.offsets[|a.valid|] - a.offsets[0]);
      Decimals(child, Child(child, a))
    case StructOf(fields) => ColumnDecimals(f, a, |fields|)
    case _ => []
  }

  function ColumnDecimals(f: Field, a: Array, k: nat): seq<Decimal>
    requires f.dtype.StructOf? && Conforms(f, a) && k <= |f.Children()|
    decreases f, k
  {
    if k == 0 then [] else ColumnDecimals(f, a, k - 1) + Decimals(f.Children()[k - 1], a.columns[k - 1])
  }

  lemma {:induction false} SlotMember(precision: nat, slots: seq<Option<int>>, d: Decimal)
    ensures d in SlotDecimals(precision, slots) <==> d.precision == precision && Some(d.value) in slots
  {
    if slots != [] {
      var n := |slots| - 1;
      SlotMember(precision, slots[..n], d);
      assert slots == slots[..n] + [slots[n]];
    }
  }

  lemma {:induction false} ColumnMember(f: Field, a: Array, n: nat, d: Decimal)
    requires f.dtype.StructOf? && Conforms(f, a) && n <= |f.Children()|
    ensures d in ColumnDecimals(f, a, n) <==> exists k :: 0 <= k < n && d in Decimals(f.Children()[k], a.columns[k])
    decreases n
  {
    if n > 0 {
      ColumnMember(f, a, n - 1, d);
    }
  }

  /** `d` is in the cell, at any depth: a value that is there, with the precision of its field. */
  predicate InCell(f: Field, c: Cell, d: Decimal)
    decreases f
  {
    match f.dtype
    case Decimal128(precision, _) => c.Leaf? && c.slot == Some(d.value) && d.precision == precision
    case ListOf(child) => c.Items? && exists j :: 0 <= j < |c.items| && InCell(child, c.items[j], d)
    case StructOf(fields) => c.Parts? && exists i :: 0 <= i < |fields| <= |c.parts| && InCell(fields[i], c.parts[i], d)
    case _ => false
  }

  /** Slot `k` shows the decimal. */
  predicate Shows(f: Field, a: Array, d: Decimal, k: nat)
    requires Conforms(f, a)
  {
    k < Length(a) && InCell(f, CellAt(f, a, k), d)
  }

  ghost predicate ShowsSomewhere(f: Field, a: Array, d: Decimal)
    requires Conforms(f, a)
  {
    exists k: nat :: Shows(f, a, d, k)
  }

  /** The slot whose items contain the child slot `x`. */
  lemma {:induction false} SlotOf(offsets: seq<nat>, n: nat, x: nat) returns (k: nat)
    requires n < |offsets| && offsets[0] <= x < offsets[n]
    ensures k < n && offsets[k] <= x < offsets[k + 1]
  {
    if x < offsets[n - 1] {
      k := SlotOf(offsets, n - 1, x);
    } else {
      k := n - 1;
    }
  }

  /** The decimals that are checked are exactly those that the slots of the array show. */
  lemma {:induction false} DecimalsShown(f: Field, a: Array, d: Decimal)
    requires Conforms(f, a)
    ensures d in Decimals(f, a) <==> ShowsSomewhere(f, a, d)
    decreases f, 1
  {
    match f.dtype
    case Decimal128(precision, _) => LeavesShown(f, a, d);
    case ListOf(child) => ListShown(f, child, a, d);
    case StructOf(fields) => StructShown(f, fields, a, d);
    case _ =>
  }

  lemma LeavesShown(f: Field, a: Array, d: Decimal)
    requires f.dtype.Decimal128? && Conforms(f, a)
    ensures d in Decimals(f, a) <==> ShowsSomewhere(f, a, d)
  {
    SlotMember(f.dtype.precision, a.slots, d);
    if Some(d.value) in a.slots && d.precision == f.dtype.precision {
      var k :| 0 <= k < |a.slots| && a.slots[k] == Some(d.value);
      assert Shows(f, a, d, k);
    }
  }

  lemma {:induction false} ListShown(f: Field, child: Field, a: Array, d: Decimal)
    requires f.dtype == ListOf(child) && Conforms(f, a)
    ensures d in Decimals(f, a) <==> ShowsSomewhere(f, a, d)
    decreases f, 0
  {
    assert InOrder(a.offsets, 0, |a.valid|);
    var start, size := a.offsets[0], a.offsets[|a.valid|] - a.offsets[0];
    ListDecimals(f, child, a, start, size);
    DecimalsShown(child, Slice(a.values, start, size), d);
    ListSlotsShow(f, child, a, start, size, d);
  }

  /** The slots of a list show what the child slots between its offsets do. */
  lemma ListSlotsShow(f: Field, child: Field, a: Array, start: nat, size: nat, d: Decimal)
    requires f.dtype == ListOf(child) && Conforms(f, a) && start == a.offsets[0] && start + size == a.offsets[|a.valid|]
    requires start + size <= Length(a.values) && Conforms(child, Slice(a.values, start, size))
    ensures ShowsSomewhere(child, Slice(a.values, start, size), d) <==> ShowsSomewhere(f, a, d)
  {
    var window := Slice(a.values, start, size);
    SliceConforms(child, a.values, start, size);
    if ShowsSomewhere(child, window, d) {
      var m: nat :| Shows(child, window, d, m);
      SliceShows(child, a.values, start, size, m);
      var k := SlotOf(a.offsets, |a.valid|, start + m);
      ItemShown(f, child, a, d, k, start + m);
    }
    if ShowsSomewhere(f, a, d) {
      var k: nat :| Shows(f, a, d, k);
      var x := ItemOf(f, child, a, d, k);
      assert InOrder(a.offsets, 0, k) && InOrder(a.offsets, k + 1, |a.valid|);
      SliceShows(child, a.values, start, size, x - start);
      assert Shows(child, window, d, x - start);
    }
  }

  /** What a child slot shows, the slot that it belongs to shows. */
  lemma ItemShown(f: Field, child: Field, a: Array, d: Decimal, k: nat, x: nat)
    requires f.dtype == ListOf(child) && Conforms(f, a) && k < |a.valid| && a.offsets[k] <= x < a.offsets[k + 1]
    requires x < Length(a.values) && InCell(child, CellAt(child, a.values, x), d)
    ensures Shows(f, a, d, k)
  {
    assert InOrder(a.offsets, k + 1, |a.valid|);
    var items := CellAt(f, a, k).items;
    assert items[x - a.offsets[k]] == CellAt(child, a.values, x);
  }

  lemma ItemOf(f: Field, child: Field, a: Array, d: Decimal, k: nat) returns (x: nat)
    requires f.dtype == ListOf(child) && Conforms(f, a) && Shows(f, a, d, k)
    ensures k < |a.valid| && a.offsets[k] <= x < a.offsets[k + 1] && x < Length(a.values)
    ensures InCell(child, CellAt(child, a.values, x), d)
  {
    assert InOrder(a.offsets, k, k + 1) && InOrder(a.offsets, k + 1, |a.valid|);
    var items := CellAt(f, a, k).items;
    var j :| 0 <= j < |items| && InCell(child, items[j], d);
    x := a.offsets[k] + j;
  }

  /** A struct slot shows what its columns show there. */
  lemma PartShown(f: Field, fields: seq<Field>, a: Array, d: Decimal, i: nat, k: nat)
    requires f.dtype == StructOf(fields) && Conforms(f, a) && i < |fields|
    ensures Shows(fields[i], a.columns[i], d, k) <==>
      k < Length(a) && |CellAt(f, a, k).parts| == |fields| && InCell(fields[i], CellAt(f, a, k).parts[i], d)
  {
    assert Conforms(fields[i], a.columns[i]) && Length(a.columns[i]) == |a.valid|;
    if k < Length(a) {
      assert CellAt(f, a, k).parts[i] == CellAt(fields[i], a.columns[i], k);
    }
  }

  lemma StructSlotShows(f: Field, fields: seq<Field>, a: Array, d: Decimal, k: nat)
    requires f.dtype == StructOf(fields) && Conforms(f, a)
    ensures Shows(f, a, d, k) <==> exists i :: 0 <= i < |fields| && Shows(fields[i], a.columns[i], d, k)
  {
    forall i | 0 <= i < |fields|
      ensures Shows(fields[i], a.columns[i], d, k) <==>
        k < Length(a) && |CellAt(f, a, k).parts| == |fields| && InCell(fields[i], CellAt(f, a, k).parts[i], d)
    {
      PartShown(f, fields, a, d, i, k);
    }
  }

  lemma {:induction false} StructShown(f: Field, fields: seq<Field>, a: Array, d: Decimal)
    requires f.dtype == StructOf(fields) && Conforms(f, a)
    ensures d in Decimals(f, a) <==> ShowsSomewhere(f, a, d)
    decreases f, 0
  {
    ColumnMember(f, a, |fields|, d);
    if d in Decimals(f, a) {
      var i :| 0 <= i < |fields| && d in Decimals(fields[i], a.columns[i]);
      DecimalsShown(fields[i], a.columns[i], d);
      var k: nat :| Shows(fields[i], a.columns[i], d, k);
      StructSlotShows(f, fields, a, d, k);
    }
    if ShowsSomewhere(f, a, d) {
      var k: nat :| Shows(f, a, d, k);
      StructSlotShows(f, fields, a, d, k);
      var i :| 0 <= i < |fields| && Shows(fields[i], a.columns[i], d, k);
      DecimalsShown(fields[i], a.columns[i], d);
    }
  }

  /** A slice shows no decimal that the original does not. */
  lemma {:induction false} SliceDecimals(f: Field, a: Array, offset: nat, length: nat, d: Decimal)
    requires Conforms(f, a) && offset + length <= Length(a)
    requires Conforms(f, Slice(a, offset, length)) && d in Decimals(f, Slice(a, offset, length))
    ensures d in Decimals(f, a)
    decreases f
  {
    var b := Slice(a, offset, length);
    match f.dtype
    case Decimal128(precision, _) =>
      SlotMember(precision, a.slots, d);
      SlotMember(precision, b.slots, d);
    case ListOf(child) => SliceListDecimals(f, child, a, offset, length, d);
    case StructOf(fields) =>
      ColumnMember(f, b, |fields|, d);
      ColumnMember(f, a, |fields|, d);
      var k :| 0 <= k < |fields| && d in Decimals(fields[k], b.columns[k]);
      SliceDecimals(fields[k], a.columns[k], offset, length, d);
    case _ =>
  }

  predicate ListForm(a: Array)
  {
    a.Lists? && |a.offsets| == |a.valid| + 1 && Ascending(a.offsets) && a.offsets[|a.valid|] <= Length(a.values)
  }

  /** A list array shows the decimals of the child slots between its first and its last offset. */
  lemma ListDecimals(f: Field, child: Field, a: Array, start: nat, count: nat)
    requires f.dtype == ListOf(child) && Conforms(f, a) && start == a.offsets[0]
    requires start + count == a.offsets[|a.valid|]
    ensures start + count <= Length(a.values) && Conforms(child, Slice(a.values, start, count))
    ensures Decimals(f, a) == Decimals(child, Slice(a.values, start, count))
  {
    assert InOrder(a.offsets, 0, |a.valid|);
    SliceConforms(child, a.values, start, count);
  }

  /** `b` starts at the slot `offset` of `a` and has `length` slots, over the same child. */
  predicate ListWindow(a: Array, b: Array, offset: nat, length: nat)
    requires ListForm(a) && ListForm(b) && offset + length <= |a.valid|
  {
    && |b.valid| == length && b.values == a.values
    && b.offsets[0] == a.offsets[offset] && b.offsets[length] == a.offsets[offset + length]
  }

  lemma SliceIsWindow(a: Array, offset: nat, length: nat)
    requires ListForm(a) && offset + length <= |a.valid|
    ensures ListForm(Slice(a, offset, length)) && ListWindow(a, Slice(a, offset, length), offset, length)
  {
    SliceOfList(a, offset, length);
    WindowBounds(a, offset, length);
  }

  lemma {:induction false} SliceListDecimals(f: Field, child: Field, a: Array, offset: nat, length: nat, d: Decimal)
    requires f.dtype == ListOf(child) && Conforms(f, a) && offset + length <= Length(a)
    requires Conforms(f, Slice(a, offset, length)) && d in Decimals(f, Slice(a, offset, length))
    ensures d in Decimals(f, a)
    decreases f, 1
  {
    assert ListForm(a);
    SliceIsWindow(a, offset, length);
    WindowDecimals(f, child, a, Slice(a, offset, length), offset, length, d);
  }

  /** A window of a list array shows no decimal that the array does not. */
  lemma {:induction false} WindowDecimals(f: Field, child: Field, a: Array, b: Array, offset: nat, length: nat,
                                          d: Decimal)
    requires f.dtype == ListOf(child) && Conforms(f, a) && Conforms(f, b) && offset + length <= |a.valid|
    requires ListWindow(a, b, offset, length) && d in Decimals(f, b)
    ensures d in Decimals(f, a)
    decreases f, 0
  {
    WindowBounds(a, offset, length);
    var start, size := a.offsets[0], a.offsets[|a.valid|] - a.offsets[0];
    var inner, count := a.offsets[offset] - a.offsets[0], a.offsets[offset + length] - a.offsets[offset];
    ListDecimals(f, child, a, start, size);
    ListDecimals(f, child, b, start + inner, count);
    SlicesCompose(child, a.values, start, size, inner, count);
    SliceDecimals(child, Slice(a.values, start, size), inner, count, d);
  }

  lemma WindowBounds(a: Array, offset: nat, length: nat)
    requires ListForm(a) && offset + length <= |a.valid|
    ensures a.offsets[0] <= a.offsets[offset] <= a.offsets[offset + length] <= a.offsets[|a.valid|] <= Length(a.values)
  {
    assert InOrder(a.offsets, 0, offset) && InOrder(a.offsets, offset, offset + length)
        && InOrder(a.offsets, offset + length, |a.valid|);
  }

  /** Every decimal that a slot shows is smaller than ten to the power of its precision. */
  ghost predicate AllFit(f: Field, a: Array)
    requires Conforms(f, a)
  {
    forall k: nat, d :: Shows(f, a, d, k) ==> 0 - Power10(d.precision) < d.value < Power10(d.precision)
  }

  lemma AllFitIff(f: Field, a: Array)
    requires Conforms(f, a)
    ensures AllFit(f, a) <==> forall d :: d in Decimals(f, a) ==> Fits(d)
  {
    if AllFit(f, a) {
      forall d | d in Decimals(f, a)
        ensures Fits(d)
      {
        DecimalsShown(f, a, d);
        var k: nat :| Shows(f, a, d, k);
      }
    }
    if forall d :: d in Decimals(f, a) ==> Fits(d) {
      forall k: nat, d | Shows(f, a, d, k)
        ensures 0 - Power10(d.precision) < d.value < Power10(d.precision)
      {
        DecimalsShown(f, a, d);
      }
    }
  }

  /** Decides whether every decimal fits its precision. */
  method ValidateDecimals(f: Field, a: Array) returns (ok: bool)
    requires Conforms(f, a)
    ensures ok <==> forall d :: d in Decimals(f, a) ==> Fits(d)
    ensures ok <==> AllFit(f, a)
    decreases f, 1
  {
    AllFitIff(f, a);
    match f.dtype {
      case Decimal128(precision, _) =>
        var limit := Power10(precision);
        for k := 0 to |a.slots|
          invariant forall i :: 0 <= i < k && a.slots[i].Some? ==> -limit < a.slots[i].value < limit
        {
          if a.slots[k].Some? && !(-limit < a.slots[k].value < limit) {
            ghost var wrong := Decimal(precision, a.slots[k].value);
            SlotMember(precision, a.slots, wrong);
            assert wrong in Decimals(f, a) && !Fits(wrong);
            return false;
          }
        }
        forall d | d in Decimals(f, a)
          ensures Fits(d)
        {
          SlotMember(precision, a.slots, d);
        }
        ok := true;
      case ListOf(child) =>
        var start, end := a.offsets[0], a.offsets[|a.valid|];
        assert InOrder(a.offsets, 0, |a.valid|);
        SliceConforms(child, a.values, start, end - start);
        ok := ValidateDecimals(child, Slice(a.values, start, end - start));
      case StructOf(fields) => ok := ValidateColumns(f, a);
      case _ => ok := true;
    }
  }

  method ValidateColumns(f: Field, a: Array) returns (ok: bool)
    requires f.dtype.StructOf? && Conforms(f, a)
    ensures ok <==> forall d :: d in ColumnDecimals(f, a, |f.Children()|) ==> Fits(d)
    decreases f, 0
  {
    for k := 0 to |f.Children()|
      invariant forall d :: d in ColumnDecimals(f, a, k) ==> Fits(d)
    {
      ok := ValidateDecimals(f.Children()[k], a.columns[k]);
      if !ok {
        ghost var d :| d in Decimals(f.Children()[k], a.columns[k]) && !Fits(d);
        ColumnMember(f, a, |f.Children()|, d);
        return false;
      }
    }
    ok := true;
  }
}
