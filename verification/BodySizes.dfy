/** The bounded calculator of a batch's body size, written against arrays rather than descriptors. */
module BodySizes {
  import opened Options
  import opened Sequences
  import opened Layouts
  import opened LayoutValidation

  const MAX_I32: int := 0x7fff_ffff

  /** Physical array data: a window of `length` slots at `offset`. `valid` and `offsets` cover
      the physical slots; the children of a struct are windows of the same length. */
  datatype ArrayData = ArrayData(offset: nat, length: nat, valid: seq<bool>, offsets: seq<int>,
                                 children: seq<ArrayData>)

  function CountNulls(valid: seq<bool>): nat
  {
    if valid == [] then 0 else CountNulls(valid[..|valid| - 1]) + if valid[|valid| - 1] then 0 else 1
  }

  function Window(a: ArrayData): seq<bool>
    requires a.offset + a.length <= |a.valid|
  {
    a.valid[a.offset..a.offset + a.length]
  }

  function NullCount(f: Field, a: ArrayData): nat
    requires a.offset + a.length <= |a.valid|
  {
    if f.layout.NullLayout? then a.length else CountNulls(Window(a))
  }

  /** Where the values of a variable-width or list array start, and how many there are. */
  function OffsetSpan(a: ArrayData): (nat, nat)
    requires OffsetsOk(a)
  {
    if a.length == 0 then (0, 0) else (a.offsets[a.offset], a.offsets[a.offset + a.length] - a.offsets[a.offset])
  }

  /** Offsets in use are non-negative 32-bit integers in ascending order. */
  predicate OffsetsOk(a: ArrayData)
  {
    a.length > 0 ==>
      && a.offset + a.length < |a.offsets| <= MAX_USIZE
      && (forall i, j :: a.offset <= i <= j <= a.offset + a.length ==> 0 <= a.offsets[i] <= a.offsets[j] <= MAX_I32)
  }

  /** A window into an array; the children of a struct are windowed with it. */
  function Slice(f: Field, a: ArrayData, start: nat, length: nat): ArrayData
    decreases f
  {
    ArrayData(a.offset + start, length, a.valid, a.offsets,
      if f.layout.StructOf? && |a.children| == |f.Children()| then
        seq(|a.children|, k requires 0 <= k < |a.children| => Slice(f.Children()[k], a.children[k], start, length))
      else a.children)
  }

  /** Nulls of a non-nullable field may only sit where `masked` does. */
  predicate NullsOk(f: Field, a: ArrayData, masked: seq<bool>)
    requires a.offset + a.length <= |a.valid|
  {
    f.nullable || f.layout.NullLayout?
    || (|masked| == a.length && forall k :: 0 <= k < a.length ==> !Window(a)[k] ==> masked[k])
  }

  function NoMask(length: nat): seq<bool>
  {
    seq(length, k => false)
  }

  function Mask(a: ArrayData): seq<bool>
    requires a.offset + a.length <= |a.valid|
  {
    seq(a.length, k requires 0 <= k < a.length => !Window(a)[k])
  }

  /** The array is well formed for the field; `masked` says which slots an enclosing struct nulls. */
  predicate WellFormed(f: Field, a: ArrayData, masked: seq<bool>)
    decreases f
  {
    && !f.layout.Unsupported?
    && a.offset + a.length <= |a.valid| && |a.children| == |f.Children()| && NullsOk(f, a, masked)
    && match f.layout
       case VariableWidth => OffsetsOk(a)
       case ListOf(child) =>
         && OffsetsOk(a) && WellFormed(child, a.children[0], NoMask(a.children[0].length))
         && (a.length > 0 ==> a.offsets[a.offset + a.length] <= a.children[0].length)
       case StructOf(fields) =>
         forall k {:trigger WellFormed(fields[k], a.children[k], Mask(a))} :: 0 <= k < |fields| ==>
             a.children[k].length == a.length && WellFormed(fields[k], a.children[k], Mask(a))
       case _ => true
  }

  /** The shape of the descriptors of an array. */
  function ShapeOf(f: Field, a: ArrayData, masked: seq<bool>): Shape
    requires WellFormed(f, a, masked)
    decreases f
  {
    match f.layout
    case VariableWidth => Shape(a.length, NullCount(f, a), OffsetSpan(a).1, [])
    case ListOf(child) =>
      var (start, length) := OffsetSpan(a);
      SliceKeeps(child, a.children[0], start, length, NoMask(a.children[0].length), NoMask(length));
      Shape(a.length, NullCount(f, a), 0, [ShapeOf(child, Slice(child, a.children[0], start, length), NoMask(length))])
    case StructOf(fields) =>
      Shape(a.length, NullCount(f, a), 0,
            seq(|fields|, k requires 0 <= k < |fields| => ShapeOf(fields[k], a.children[k], Mask(a))))
    case _ => Shape(a.length, NullCount(f, a), 0, [])
  }

  lemma SliceWindow(f: Field, a: ArrayData, start: nat, length: nat)
    requires a.offset + a.length <= |a.valid| && start + length <= a.length
    ensures Window(Slice(f, a, start, length)) == Window(a)[start..start + length]
  {
  }

  lemma SliceNulls(f: Field, a: ArrayData, start: nat, length: nat, masked: seq<bool>, masked': seq<bool>)
    requires a.offset + a.length <= |a.valid| && start + length <= a.length && NullsOk(f, a, masked)
    requires |masked'| == length && (|masked| == a.length ==> masked' == masked[start..start + length])
    ensures NullsOk(f, Slice(f, a, start, length), masked')
    ensures Mask(Slice(f, a, start, length)) == Mask(a)[start..start + length]
  {
    var b := Slice(f, a, start, length);
    SliceWindow(f, a, start, length);
    forall k | 0 <= k < length
      ensures Window(b)[k] == Window(a)[start + k]
    {
    }
  }

  lemma SliceOffsets(f: Field, a: ArrayData, start: nat, length: nat)
    requires OffsetsOk(a) && start + length <= a.length
    ensures OffsetsOk(Slice(f, a, start, length))
    ensures var span, span' := OffsetSpan(a), OffsetSpan(Slice(f, a, start, length));
      span'.0 + span'.1 <= span.0 + span.1
  {
  }

  /** A window of a well-formed array is well formed. */
  lemma {:induction false} SliceKeeps(f: Field, a: ArrayData, start: nat, length: nat, masked: seq<bool>,
                                      masked': seq<bool>)
    requires WellFormed(f, a, masked) && start + length <= a.length
    requires |masked'| == length && (|masked| == a.length ==> masked' == masked[start..start + length])
    ensures WellFormed(f, Slice(f, a, start, length), masked') && Slice(f, a, start, length).length == length
    decreases f
  {
    SliceNulls(f, a, start, length, masked, masked');
    match f.layout
    case VariableWidth => SliceOffsets(f, a, start, length);
    case ListOf(_) => SliceOffsets(f, a, start, length);
    case StructOf(fields) =>
      var b := Slice(f, a, start, length);
      forall k | 0 <= k < |fields|
        ensures b.children[k].length == length && WellFormed(fields[k], b.children[k], Mask(b))
      {
        SliceKeeps(fields[k], a.children[k], start, length, Mask(a), Mask(b));
      }
    case _ =>
  }

  // ---- The shape is one the schema admits ---------------------------------

  lemma {:induction false} CountBound(valid: seq<bool>)
    ensures CountNulls(valid) <= |valid|
  {
    if valid != [] {
      CountBound(valid[..|valid| - 1]);
    }
  }

  /** If every null sits where the mask does, there are no more nulls than masked slots. */
  lemma {:induction false} CountMasked(valid: seq<bool>, masked: seq<bool>)
    requires |valid| == |masked| && forall k :: 0 <= k < |valid| && !valid[k] ==> masked[k]
    ensures CountNulls(valid) <= CountTrue(masked)
  {
    if valid != [] {
      CountMasked(valid[..|valid| - 1], masked[..|masked| - 1]);
    }
  }

  function CountTrue(masked: seq<bool>): nat
  {
    if masked == [] then 0 else CountTrue(masked[..|masked| - 1]) + if masked[|masked| - 1] then 1 else 0
  }

  lemma {:induction false} CountOpposite(valid: seq<bool>, masked: seq<bool>)
    requires |valid| == |masked| && forall k :: 0 <= k < |valid| ==> masked[k] == !valid[k]
    ensures CountTrue(masked) == CountNulls(valid)
  {
    if valid != [] {
      CountOpposite(valid[..|valid| - 1], masked[..|masked| - 1]);
    }
  }

  lemma {:induction false} CountNone(masked: seq<bool>)
    requires forall k :: 0 <= k < |masked| ==> !masked[k]
    ensures CountTrue(masked) == 0
  {
    if masked != [] {
      CountNone(masked[..|masked| - 1]);
    }
  }

  lemma NullsFit(f: Field, a: ArrayData, masked: seq<bool>)
    requires a.offset + a.length <= |a.valid| && NullsOk(f, a, masked)
    ensures NullCount(f, a) <= a.length
    ensures !f.layout.NullLayout? && !f.nullable ==> NullCount(f, a) <= CountTrue(masked)
  {
    CountBound(Window(a));
    if !f.layout.NullLayout? && !f.nullable {
      CountMasked(Window(a), masked);
    }
  }

  lemma FitsList(f: Field, child: Field, s: Shape, c: Shape, expected: Option<nat>, masked: nat)
    requires f.layout == ListOf(child) && s.children == [c] && FitsRow(f, s, expected, masked)
    requires Fits(child, c, None, 0)
    ensures Fits(f, s, expected, masked)
  {
    assert f.Children() == [child];
  }

  lemma FitsStruct(f: Field, fields: seq<Field>, s: Shape, expected: Option<nat>, masked: nat)
    requires f.layout == StructOf(fields) && |s.children| == |fields| && FitsRow(f, s, expected, masked)
    requires forall k :: 0 <= k < |fields| ==> Fits(fields[k], s.children[k], Some(s.length), s.nulls)
    ensures Fits(f, s, expected, masked)
  {
  }

  lemma RowFits(f: Field, a: ArrayData, masked: seq<bool>, expected: Option<nat>)
    requires WellFormed(f, a, masked) && (expected.Some? ==> expected.value == a.length)
    ensures FitsRow(f, ShapeOf(f, a, masked), expected, CountTrue(masked)) && ShapeOf(f, a, masked).length == a.length
    ensures ShapeOf(f, a, masked).nulls == NullCount(f, a)
  {
    NullsFit(f, a, masked);
  }

  /** The descriptors of a well-formed array fit its field. */
  lemma {:induction false} ShapeFits(f: Field, a: ArrayData, masked: seq<bool>, expected: Option<nat>)
    requires WellFormed(f, a, masked) && (expected.Some? ==> expected.value == a.length)
    ensures Fits(f, ShapeOf(f, a, masked), expected, CountTrue(masked)) && ShapeOf(f, a, masked).length == a.length
    decreases f, 1
  {
    RowFits(f, a, masked, expected);
    match f.layout
    case ListOf(child) =>
      var (start, length) := OffsetSpan(a);
      SliceKeeps(child, a.children[0], start, length, NoMask(a.children[0].length), NoMask(length));
      CountNone(NoMask(length));
      ShapeFits(child, Slice(child, a.children[0], start, length), NoMask(length), None);
      FitsList(f, child, ShapeOf(f, a, masked),
               ShapeOf(child, Slice(child, a.children[0], start, length), NoMask(length)), expected, CountTrue(masked));
    case StructOf(fields) => StructFits(f, fields, a, masked, expected);
    case _ =>
  }

  lemma {:induction false} StructFits(f: Field, fields: seq<Field>, a: ArrayData, masked: seq<bool>,
                                      expected: Option<nat>)
    requires f.layout == StructOf(fields) && WellFormed(f, a, masked)
    requires FitsRow(f, ShapeOf(f, a, masked), expected, CountTrue(masked))
    ensures Fits(f, ShapeOf(f, a, masked), expected, CountTrue(masked))
    decreases f, 0
  {
    CountOpposite(Window(a), Mask(a));
    var s := ShapeOf(f, a, masked);
    forall k | 0 <= k < |fields|
      ensures Fits(fields[k], s.children[k], Some(s.length), s.nulls)
    {
      ShapeFits(fields[k], a.children[k], Mask(a), Some(a.length));
    }
    FitsStruct(f, fields, s, expected, CountTrue(masked));
  }

  // ---- The shape, slot by slot ---------------------------------------------

  /** The slots `from`, ..., `to - 1`. */
  function Range(from: nat, to: nat): (r: seq<nat>)
    ensures |r| == if from <= to then to - from else 0
  {
    seq(if from <= to then to - from else 0, k requires 0 <= k => from + k)
  }

  function OffsetAt(a: ArrayData, k: nat): nat
  {
    if k < |a.offsets| && a.offsets[k] >= 0 then a.offsets[k] else 0
  }

  /** What the first `n` of the slots address: slot `i` everything from its own offset up to the next one. */
  function AddressedTo(a: ArrayData, slots: seq<nat>, n: nat): seq<nat>
    requires n <= |slots|
  {
    if n == 0 then []
    else AddressedTo(a, slots, n - 1)
         + Range(OffsetAt(a, a.offset + slots[n - 1]), OffsetAt(a, a.offset + slots[n - 1] + 1))
  }

  function Addressed(a: ArrayData, slots: seq<nat>): seq<nat>
  {
    AddressedTo(a, slots, |slots|)
  }

  /** How many of the first `n` slots are null. */
  function NullsTo(a: ArrayData, slots: seq<nat>, n: nat): nat
    requires n <= |slots|
  {
    if n == 0 then 0
    else NullsTo(a, slots, n - 1)
         + if a.offset + slots[n - 1] < |a.valid| && !a.valid[a.offset + slots[n - 1]] then 1 else 0
  }

  /** The descriptors of exactly these slots of an array and of everything below them. */
  function SlotShape(f: Field, a: ArrayData, slots: seq<nat>): Shape
    decreases f
  {
    var nulls := if f.layout.NullLayout? then |slots| else NullsTo(a, slots, |slots|);
    match f.layout
    case VariableWidth => Shape(|slots|, nulls, |Addressed(a, slots)|, [])
    case ListOf(child) =>
      Shape(|slots|, nulls, 0,
            seq(|a.children|, k requires 0 <= k < |a.children| => SlotShape(child, a.children[k], Addressed(a, slots))))
    case StructOf(fields) =>
      Shape(|slots|, nulls, 0,
            seq(|fields|, k requires 0 <= k < |fields| =>
                if k < |a.children| then SlotShape(fields[k], a.children[k], slots) else Shape(0, 0, 0, [])))
    case _ => Shape(|slots|, nulls, 0, [])
  }

  function Shifted(slots: seq<nat>, start: nat): (r: seq<nat>)
    ensures |r| == |slots| && forall k :: 0 <= k < |slots| ==> r[k] == slots[k] + start
  {
    seq(|slots|, k requires 0 <= k < |slots| => slots[k] + start)
  }

  lemma {:induction false} AddressedShift(a: ArrayData, b: ArrayData, start: nat, slots: seq<nat>, n: nat)
    requires b.offset == a.offset + start && b.offsets == a.offsets && n <= |slots|
    ensures AddressedTo(b, slots, n) == AddressedTo(a, Shifted(slots, start), n)
  {
    if n > 0 {
      AddressedShift(a, b, start, slots, n - 1);
    }
  }

  lemma {:induction false} NullsShift(a: ArrayData, b: ArrayData, start: nat, slots: seq<nat>, n: nat)
    requires b.offset == a.offset + start && b.valid == a.valid && n <= |slots|
    ensures NullsTo(b, slots, n) == NullsTo(a, Shifted(slots, start), n)
  {
    if n > 0 {
      NullsShift(a, b, start, slots, n - 1);
    }
  }

  /** Slots of a window are slots of the array, counted from the window's start. */
  lemma {:induction false} SlotsOfSlice(f: Field, a: ArrayData, start: nat, length: nat, slots: seq<nat>,
                                        masked: seq<bool>)
    requires WellFormed(f, a, masked)
    ensures SlotShape(f, Slice(f, a, start, length), slots) == SlotShape(f, a, Shifted(slots, start))
    decreases f
  {
    var b := Slice(f, a, start, length);
    AddressedShift(a, b, start, slots, |slots|);
    NullsShift(a, b, start, slots, |slots|);
    if f.layout.StructOf? {
      var fields := f.layout.fields;
      var left, right := SlotShape(f, b, slots), SlotShape(f, a, Shifted(slots, start));
      forall k | 0 <= k < |fields|
        ensures left.children[k] == right.children[k]
      {
        SlotsOfSlice(fields[k], a.children[k], start, length, slots, Mask(a));
      }
      assert left.children == right.children;
    }
  }

  /** Adjacent slots address adjacent ranges. */
  lemma {:induction false} AddressedRange(a: ArrayData, n: nat)
    requires OffsetsOk(a) && 0 < a.length && n <= a.length
    ensures AddressedTo(a, Range(0, a.length), n) == Range(OffsetAt(a, a.offset), OffsetAt(a, a.offset + n))
    ensures OffsetAt(a, a.offset) == a.offsets[a.offset] <= OffsetAt(a, a.offset + n) == a.offsets[a.offset + n]
  {
    if n > 0 {
      AddressedRange(a, n - 1);
    }
  }

  lemma {:induction false} NullsRange(a: ArrayData, n: nat)
    requires a.offset + a.length <= |a.valid| && n <= a.length
    ensures NullsTo(a, Range(0, a.length), n) == CountNulls(Window(a)[..n])
  {
    if n > 0 {
      NullsRange(a, n - 1);
      assert Window(a)[..n][..n - 1] == Window(a)[..n - 1];
    }
  }

  /** The shape of an array is that of its slots: a list addresses the child slots between the
      offsets of its own slots, and variable-width data the bytes between them. */
  lemma {:induction false} ShapeIsSlotwise(f: Field, a: ArrayData, masked: seq<bool>)
    requires WellFormed(f, a, masked)
    ensures ShapeOf(f, a, masked) == SlotShape(f, a, Range(0, a.length))
    decreases f, 1
  {
    NullsRange(a, a.length);
    assert Window(a)[..a.length] == Window(a);
    if (f.layout.VariableWidth? || f.layout.ListOf?) && a.length > 0 {
      AddressedRange(a, a.length);
    }
    match f.layout
    case ListOf(child) => ListIsSlotwise(f, child, a, masked);
    case StructOf(fields) =>
      var left, right := ShapeOf(f, a, masked), SlotShape(f, a, Range(0, a.length));
      forall k | 0 <= k < |fields|
        ensures left.children[k] == right.children[k]
      {
        ShapeIsSlotwise(fields[k], a.children[k], Mask(a));
      }
      assert left.children == right.children;
    case _ =>
  }

  /** All slots of the window together address one range. */
  lemma SpanAddressed(a: ArrayData)
    requires OffsetsOk(a)
    ensures var (start, length) := OffsetSpan(a);
      Shifted(Range(0, length), start) == Addressed(a, Range(0, a.length))
  {
    if a.length > 0 {
      AddressedRange(a, a.length);
    }
  }

  lemma ListSlotShape(f: Field, child: Field, a: ArrayData, slots: seq<nat>)
    requires f.layout == ListOf(child) && |a.children| == 1
    ensures SlotShape(f, a, slots).children == [SlotShape(child, a.children[0], Addressed(a, slots))]
  {
  }

  lemma {:induction false} ListIsSlotwise(f: Field, child: Field, a: ArrayData, masked: seq<bool>)
    requires f.layout == ListOf(child) && WellFormed(f, a, masked)
    ensures ShapeOf(f, a, masked).children == SlotShape(f, a, Range(0, a.length)).children
    decreases f, 0
  {
    var (start, length) := OffsetSpan(a);
    var c := a.children[0];
    SliceKeeps(child, c, start, length, NoMask(c.length), NoMask(length));
    ShapeIsSlotwise(child, Slice(child, c, start, length), NoMask(length));
    SlotsOfSlice(child, c, start, length, Range(0, length), NoMask(c.length));
    SpanAddressed(a);
    ListSlotShape(f, child, a, Range(0, a.length));
  }

  // ---- The bounded calculation --------------------------------------------

  class BodyBudget {
    const maxBytes: nat
    var bytes: nat

    ghost predicate Valid()
      reads this
    {
      bytes % 8 == 0 && bytes <= maxBytes <= MAX_USIZE
    }

    constructor (maxBytes: nat)
      requires maxBytes <= MAX_USIZE
      ensures Valid() && bytes == 0 && this.maxBytes == maxBytes
    {
      this.maxBytes := maxBytes;
      bytes := 0;
    }

    /** Charges one padded buffer. */
    method Buffer(n: nat) returns (ok: bool)
      requires Valid() && n <= MAX_USIZE
      modifies this
      ensures Valid()
      ensures ok <==> Align8(old(bytes) + n) <= maxBytes
      ensures ok ==> bytes == Align8(old(bytes) + n)
    {
      assert Align8(bytes + n) == bytes + Align8(n);
      if n + 7 > MAX_USIZE {
        return false;
      }
      var total := bytes + Align8(n);
      if total > MAX_USIZE || total > maxBytes {
        return false;
      }
      bytes := total;
      ok := true;
    }

    /** Charges a buffer of `count` elements of `width` bytes, multiplied with a check. */
    method Elements(count: nat, width: nat) returns (ok: bool)
      requires Valid()
      modifies this
      ensures Valid()
      ensures ok <==> Align8(old(bytes) + count * width) <= maxBytes
      ensures ok ==> bytes == Align8(old(bytes) + count * width)
    {
      var product := count * width;
      if product > MAX_USIZE || product > maxBytes {
        return false;
      }
      ok := Buffer(product);
    }

    /** Charges the buffers a field has of its own. */
    method Own(f: Field, length: nat, span: nat) returns (ok: bool)
      requires Valid() && Manageable(f, length) && span <= MAX_USIZE
      modifies this
      ensures Valid()
      ensures var end := End(old(bytes), OwnBuffers(f, Shape(length, 0, span, [])));
        (ok <==> end <= maxBytes) && (ok ==> bytes == end)
    {
      OwnEnd(bytes, f, length, span);
      if f.layout.NullLayout? || f.layout.Unsupported? {
        return true;
      }
      if length + 7 > MAX_USIZE {
        HugeFixed(bytes, length, f.layout.width);
        return false;
      }
      ok := Buffer(BitmapBytes(length));
      if ok {
        ok := Values(f, length, span);
      }
    }

    /** Charges the value and offset buffers, after the validity bitmap. */
    method Values(f: Field, length: nat, span: nat) returns (ok: bool)
      requires Valid() && length <= MAX_USIZE - 7 && span <= MAX_USIZE && !f.layout.NullLayout?
      requires !f.layout.Unsupported?
      modifies this
      ensures Valid()
      ensures var end := ValuesEnd(f, length, span, old(bytes)); (ok <==> end <= maxBytes) && (ok ==> bytes == end)
    {
      match f.layout {
        case Bitmap => ok := Buffer(BitmapBytes(length));
        case FixedWidth(width) => ok := Elements(length, width);
        case VariableWidth =>
          ok := Elements(length + 1, 4);
          if ok {
            ok := Buffer(span);
          }
        case ListOf(_) => ok := Elements(length + 1, 4);
        case StructOf(_) => ok := true;
      }
    }
  }

  /** Where the value and offset buffers end that start at `at`. */
  function ValuesEnd(f: Field, length: nat, span: nat, at: nat): nat
  {
    match f.layout
    case Bitmap => Align8(at + BitmapBytes(length))
    case FixedWidth(width) => Align8(at + length * width)
    case VariableWidth => Align8(Align8(at + (length + 1) * 4) + span)
    case ListOf(_) => Align8(at + (length + 1) * 4)
    case _ => at
  }

  /** Lengths for which the bitmap size cannot overflow, or for which the values overflow the limit anyway. */
  predicate Manageable(f: Field, length: nat)
  {
    length <= MAX_USIZE - 7 || (f.layout.FixedWidth? && f.layout.width > 0)
  }

  /** Where the buffers of a field end, layout by layout. */
  lemma OwnEnd(start: nat, f: Field, length: nat, span: nat)
    ensures var end, bitmap := End(start, OwnBuffers(f, Shape(length, 0, span, []))),
        Align8(start + BitmapBytes(length));
      && end == (if f.layout.NullLayout? || f.layout.Unsupported? then start else ValuesEnd(f, length, span, bitmap))
      && ValuesEnd(f, length, span, bitmap) >= bitmap
  {
    EndSteps(start, OwnBuffers(f, Shape(length, 0, span, [])));
  }

  lemma HugeFixed(start: nat, length: nat, width: nat)
    requires width > 0 && length + 7 > MAX_USIZE
    ensures End(start, [BitmapBytes(length), length * width]) > MAX_USIZE
  {
    EndSteps(start, [BitmapBytes(length), length * width]);
    AtLeastOnce(length, width);
  }

  lemma AtLeastOnce(a: nat, b: nat)
    requires b > 0
    ensures a * b >= a
  {
  }

  lemma EndSteps(start: nat, own: seq<nat>)
    ensures |own| == 0 ==> End(start, own) == start
    ensures |own| == 1 ==> End(start, own) == Align8(start + own[0])
    ensures |own| == 2 ==> End(start, own) == Align8(Align8(start + own[0]) + own[1])
    ensures |own| == 3 ==> End(start, own) == Align8(Align8(Align8(start + own[0]) + own[1]) + own[2])
  {
    if |own| == 1 {
      assert own[..0] == [];
    } else if |own| == 2 {
      assert own[..1] == [own[0]] && own[..1][..0] == [];
    } else if |own| == 3 {
      assert own[..2][..1] == [own[0]] && own[..2][1] == own[1] && own[..2][..1][..0] == [];
    }
  }

  lemma EndMonotone(start: nat, a: seq<nat>, b: seq<nat>)
    ensures End(start, a + b) == End(End(start, a), b) >= End(start, a)
  {
    EndConcat(start, a, b);
  }

  function SpanBytes(f: Field, a: ArrayData): nat
    requires OffsetsOk(a) || !f.layout.VariableWidth?
  {
    if f.layout.VariableWidth? then OffsetSpan(a).1 else 0
  }

  // ---- The walk -----------------------------------------------------------

  /** Charges an array and everything below it. */
  method Visit(budget: BodyBudget, f: Field, a: ArrayData, ghost masked: seq<bool>) returns (ok: bool)
    requires budget.Valid() && WellFormed(f, a, masked) && Manageable(f, a.length)
    modifies budget
    ensures budget.Valid()
    ensures var end := End(old(budget.bytes), Lengths(f, ShapeOf(f, a, masked)));
      (ok <==> end <= budget.maxBytes) && (ok ==> budget.bytes == end)
    decreases f, 1
  {
    ghost var start, s := budget.bytes, ShapeOf(f, a, masked);
    EndMonotone(start, OwnBuffers(f, s), LengthsUpTo(f, s, |s.children|));
    OwnMeets(f, s);
    OwnOfArray(f, a, masked);
    ok := budget.Own(f, a.length, SpanBytes(f, a));
    if ok {
      ok := VisitChildren(budget, f, a, masked);
    }
  }

  lemma OwnOfArray(f: Field, a: ArrayData, masked: seq<bool>)
    requires WellFormed(f, a, masked)
    ensures OwnBuffers(f, ShapeOf(f, a, masked)) == OwnBuffers(f, Shape(a.length, 0, SpanBytes(f, a), []))
    ensures SpanBytes(f, a) <= MAX_USIZE
  {
  }

  method VisitChildren(budget: BodyBudget, f: Field, a: ArrayData, ghost masked: seq<bool>) returns (ok: bool)
    requires budget.Valid() && WellFormed(f, a, masked) && Manageable(f, a.length)
    modifies budget
    ensures budget.Valid()
    ensures var s := ShapeOf(f, a, masked);
      var end := End(old(budget.bytes), LengthsUpTo(f, s, |s.children|));
      (ok <==> end <= budget.maxBytes) && (ok ==> budget.bytes == end)
    decreases f, 0, 2
  {
    ghost var start, s := budget.bytes, ShapeOf(f, a, masked);
    match f.layout {
      case ListOf(child) => ok := VisitList(budget, f, child, a, masked);
      case StructOf(fields) => ok := VisitFields(budget, f, fields, a, masked);
      case _ => ok := true;
    }
  }

  method VisitList(budget: BodyBudget, f: Field, child: Field, a: ArrayData, ghost masked: seq<bool>) returns (ok: bool)
    requires budget.Valid() && f.layout == ListOf(child) && WellFormed(f, a, masked)
    modifies budget
    ensures budget.Valid()
    ensures var end := End(old(budget.bytes), LengthsUpTo(f, ShapeOf(f, a, masked), 1));
      (ok <==> end <= budget.maxBytes) && (ok ==> budget.bytes == end)
    decreases f, 0, 1
  {
    var (from, length) := OffsetSpan(a);
    SliceKeeps(child, a.children[0], from, length, NoMask(a.children[0].length), NoMask(length));
    ListShape(f, child, a, masked);
    ok := Visit(budget, child, Slice(child, a.children[0], from, length), NoMask(length));
  }

  lemma ListShape(f: Field, child: Field, a: ArrayData, masked: seq<bool>)
    requires f.layout == ListOf(child) && WellFormed(f, a, masked)
    ensures var (from, length) := OffsetSpan(a);
      && WellFormed(child, Slice(child, a.children[0], from, length), NoMask(length)) && length <= MAX_I32
      && LengthsUpTo(f, ShapeOf(f, a, masked), 1)
          == Lengths(child, ShapeOf(child, Slice(child, a.children[0], from, length), NoMask(length)))
  {
    var (from, length) := OffsetSpan(a);
    SliceKeeps(child, a.children[0], from, length, NoMask(a.children[0].length), NoMask(length));
    ShapeFits(child, Slice(child, a.children[0], from, length), NoMask(length), None);
    OnlyChild(f, child, ShapeOf(f, a, masked));
  }

  method VisitFields(budget: BodyBudget, f: Field, fields: seq<Field>, a: ArrayData, ghost masked: seq<bool>)
    returns (ok: bool)
    requires budget.Valid() && f.layout == StructOf(fields) && WellFormed(f, a, masked) && a.length <= MAX_USIZE - 7
    modifies budget
    ensures budget.Valid()
    ensures var end := Reach(f, a, masked, |fields|, old(budget.bytes));
      (ok <==> end <= budget.maxBytes) && (ok ==> budget.bytes == end)
    decreases f, 0, 1
  {
    ghost var start := budget.bytes;
    assert LengthsUpTo(f, ShapeOf(f, a, masked), 0) == [];
    assert fields[0..] == fields && a.children[0..] == a.children;
    ok := VisitEach(budget, fields, a.children, f, fields, a, masked, 0, start);
  }

  /** Charges the fields of a struct from `from` on. */
  method VisitEach(budget: BodyBudget, fields: seq<Field>, arrays: seq<ArrayData>, ghost f: Field,
                   ghost all: seq<Field>, ghost a: ArrayData, ghost masked: seq<bool>, ghost from: nat,
                   ghost start: nat)
    returns (ok: bool)
    requires budget.Valid() && f.layout == StructOf(all) && WellFormed(f, a, masked) && a.length <= MAX_USIZE - 7
    requires from <= |all| == |a.children| && fields == all[from..] && arrays == a.children[from..]
    requires budget.bytes == Reach(f, a, masked, from, start)
    modifies budget
    ensures budget.Valid()
    ensures var end := Reach(f, a, masked, |all|, start);
      (ok <==> end <= budget.maxBytes) && (ok ==> budget.bytes == end)
    decreases f, 0, 0
  {
    for k := 0 to |fields|
      invariant budget.Valid() && budget.bytes == Reach(f, a, masked, from + k, start)
    {
      assert fields[k] == all[from + k] && arrays[k] == a.children[from + k];
      ok := VisitField(budget, fields[k], arrays[k], f, all, a, masked, from + k, start);
      if !ok {
        return false;
      }
    }
    ok := true;
  }

  /** Charges the `k`-th field of a struct, after the ones before it. */
  method VisitField(budget: BodyBudget, field: Field, child: ArrayData, ghost f: Field, ghost fields: seq<Field>,
                    ghost a: ArrayData, ghost masked: seq<bool>, ghost k: nat, ghost start: nat)
    returns (ok: bool)
    requires budget.Valid() && f.layout == StructOf(fields) && WellFormed(f, a, masked) && k < |fields|
    requires field == fields[k] && child == a.children[k]
    requires budget.bytes == Reach(f, a, masked, k, start) && (a.length <= MAX_USIZE - 7 || Manageable(field, a.length))
    modifies budget
    ensures budget.Valid()
    ensures ok ==> budget.bytes == Reach(f, a, masked, k + 1, start)
    ensures !ok ==> Reach(f, a, masked, |fields|, start) > budget.maxBytes
    decreases field, 2
  {
    FieldStep(f, fields, a, masked, k, start);
    ok := Visit(budget, field, child, Mask(a));
  }

  /** How far the first `k` fields of a struct reach. */
  ghost function Reach(f: Field, a: ArrayData, masked: seq<bool>, k: nat, start: nat): nat
    requires WellFormed(f, a, masked) && f.layout.StructOf? && k <= |f.Children()|
  {
    End(start, LengthsUpTo(f, ShapeOf(f, a, masked), k))
  }

  lemma FieldStep(f: Field, fields: seq<Field>, a: ArrayData, masked: seq<bool>, k: nat, start: nat)
    requires f.layout == StructOf(fields) && WellFormed(f, a, masked) && k < |fields|
    ensures WellFormed(fields[k], a.children[k], Mask(a)) && a.children[k].length == a.length
    ensures Reach(f, a, masked, k + 1, start)
        == End(Reach(f, a, masked, k, start), Lengths(fields[k], ShapeOf(fields[k], a.children[k], Mask(a))))
    ensures Reach(f, a, masked, k + 1, start) <= Reach(f, a, masked, |fields|, start)
  {
    var s := ShapeOf(f, a, masked);
    FieldShape(f, fields, a, masked, k);
    ReachStep(f, s, k, start);
  }

  lemma ReachStep(f: Field, s: Shape, k: nat, start: nat)
    requires k < |s.children| == |f.Children()| && |s.children[k].children| <= |f.Children()[k].Children()|
    ensures End(start, LengthsUpTo(f, s, k + 1))
        == End(End(start, LengthsUpTo(f, s, k)), Lengths(f.Children()[k], s.children[k]))
    ensures End(start, LengthsUpTo(f, s, k + 1)) <= End(start, LengthsUpTo(f, s, |s.children|))
  {
    UpToNext(f, s, k);
    UpToPrefix(f, s, k + 1, |s.children|);
    EndWithin(start, LengthsUpTo(f, s, k), Lengths(f.Children()[k], s.children[k]), LengthsUpTo(f, s, |s.children|));
  }

  lemma EndWithin(start: nat, a: seq<nat>, b: seq<nat>, all: seq<nat>)
    requires a + b <= all
    ensures End(start, a + b) == End(End(start, a), b) <= End(start, all)
  {
    EndConcat(start, a, b);
    PlacePrefix(start, a + b, all);
  }

  lemma FieldShape(f: Field, fields: seq<Field>, a: ArrayData, masked: seq<bool>, k: nat)
    requires f.layout == StructOf(fields) && WellFormed(f, a, masked) && k < |fields|
    ensures WellFormed(fields[k], a.children[k], Mask(a)) && a.children[k].length == a.length
    ensures ShapeOf(f, a, masked).children[k] == ShapeOf(fields[k], a.children[k], Mask(a))
    ensures |ShapeOf(fields[k], a.children[k], Mask(a)).children| == |fields[k].Children()|
  {
    ShapeFits(fields[k], a.children[k], Mask(a), None);
  }

  lemma OnlyChild(f: Field, child: Field, s: Shape)
    requires f.layout == ListOf(child) && |s.children| == 1 && |s.children[0].children| == |child.Children()|
    ensures LengthsUpTo(f, s, 1) == Lengths(child, s.children[0])
  {
    assert LengthsUpTo(f, s, 0) == [];
  }

  // ---- Changes ------------------------------------------------------------

  /** The column of differences that precedes every record column. */
  const DIFFERENCES := Field(false, FixedWidth(8))

  function Physical(fields: seq<Field>): seq<Field>
  {
    [DIFFERENCES] + fields
  }

  /** A change: differences and record columns of one length, all well formed. */
  ghost predicate WellFormedChange(fields: seq<Field>, diffs: ArrayData, columns: seq<ArrayData>)
  {
    && WellFormed(DIFFERENCES, diffs, NoMask(diffs.length)) && diffs.length <= MAX_USIZE
    && |columns| == |fields|
    && forall k :: 0 <= k < |fields| ==>
         columns[k].length == diffs.length && WellFormed(fields[k], columns[k], NoMask(diffs.length))
  }

  /** The change as one struct without nulls. */
  function RootArray(diffs: ArrayData, columns: seq<ArrayData>): ArrayData
  {
    ArrayData(0, diffs.length, seq(diffs.length, k => true), [], [diffs] + columns)
  }

  lemma RootMask(diffs: ArrayData, columns: seq<ArrayData>)
    ensures Mask(RootArray(diffs, columns)) == NoMask(diffs.length)
  {
    var a := RootArray(diffs, columns);
    forall k | 0 <= k < diffs.length
      ensures Window(a)[k]
    {
      assert a.valid[k];
    }
  }

  lemma RootWellFormed(fields: seq<Field>, diffs: ArrayData, columns: seq<ArrayData>)
    requires WellFormedChange(fields, diffs, columns)
    ensures WellFormed(Root(Physical(fields)), RootArray(diffs, columns), NoMask(diffs.length))
    ensures CountNulls(Window(RootArray(diffs, columns))) == 0
  {
    var a := RootArray(diffs, columns);
    RootMask(diffs, columns);
    CountOpposite(Window(a), Mask(a));
    CountNone(Mask(a));
  }

  ghost function ChangeShape(fields: seq<Field>, diffs: ArrayData, columns: seq<ArrayData>): Shape
    requires WellFormedChange(fields, diffs, columns)
  {
    RootWellFormed(fields, diffs, columns);
    ShapeOf(Root(Physical(fields)), RootArray(diffs, columns), NoMask(diffs.length))
  }

  /** The true padded size of the body. */
  ghost function BodyBytes(fields: seq<Field>, diffs: ArrayData, columns: seq<ArrayData>): nat
    requires WellFormedChange(fields, diffs, columns)
  {
    var s := ChangeShape(fields, diffs, columns);
    End(0, LengthsUpTo(Root(Physical(fields)), s, |s.children|))
  }

  /** The canonical descriptors of a change are canonical for a body of exactly its size. */
  lemma ChangeIsCanonical(fields: seq<Field>, diffs: ArrayData, columns: seq<ArrayData>)
    requires WellFormedChange(fields, diffs, columns)
    ensures var s := ChangeShape(fields, diffs, columns); var root, n := Root(Physical(fields)), |fields| + 1;
      |s.children| == n && Canonical(Physical(fields), diffs.length, s, NodesUpTo(root, s, n),
                                     Place(0, LengthsUpTo(root, s, n)), BodyBytes(fields, diffs, columns))
  {
    RootWellFormed(fields, diffs, columns);
    CountNone(NoMask(diffs.length));
    ShapeFits(Root(Physical(fields)), RootArray(diffs, columns), NoMask(diffs.length), Some(diffs.length));
  }

  /** `nodes` are those of `c`, and `s` has the same variable-width byte counts. */
  ghost predicate Describes(fields: seq<Field>, c: Shape, s: Shape, nodes: seq<Node>)
  {
    var root, n := Root(Physical(fields)), |fields| + 1;
    && |c.children| == n == |s.children|
    && nodes == NodesUpTo(root, c, n) && VariableUpTo(root, s, n) == VariableUpTo(root, c, n)
  }

  /** Whatever body length the validator accepts for the descriptors of a change is its true size. */
  lemma AcceptedBodyIsExact(fields: seq<Field>, diffs: ArrayData, columns: seq<ArrayData>, nodes: seq<Node>,
                            buffers: seq<Buffer>, s: Shape, bodyLen: nat)
    requires WellFormedChange(fields, diffs, columns)
    requires Canonical(Physical(fields), diffs.length, s, nodes, buffers, bodyLen)
    requires Describes(fields, ChangeShape(fields, diffs, columns), s, nodes)
    ensures bodyLen == BodyBytes(fields, diffs, columns)
  {
    var c, root, n := ChangeShape(fields, diffs, columns), Root(Physical(fields)), |fields| + 1;
    ChangeIsCanonical(fields, diffs, columns);
    DescriptorsUnique(Physical(fields), diffs.length, nodes, s, buffers, bodyLen, c, Place(0, LengthsUpTo(root, c, n)),
                      BodyBytes(fields, diffs, columns));
  }

  // ---- The size, slot by slot ----------------------------------------------

  /** The padded buffers of a field for so many rows and bytes of variable-width data. */
  function FieldSize(f: Field, rows: nat, bytes: nat): nat
  {
    var bitmap := Align8(BitmapBytes(rows));
    match f.layout
    case Bitmap => bitmap + bitmap
    case FixedWidth(width) => bitmap + Align8(rows * width)
    case VariableWidth => bitmap + Align8((rows + 1) * 4) + Align8(bytes)
    case ListOf(_) => bitmap + Align8((rows + 1) * 4)
    case StructOf(_) => bitmap
    case _ => 0
  }

  /** The padded buffers of a field and of everything below it. */
  function TreeSize(f: Field, s: Shape): nat
    decreases f, |s.children| + 1
  {
    FieldSize(f, s.length, s.bytes) + TreeSizeTo(f, s, |s.children|)
  }

  function TreeSizeTo(f: Field, s: Shape, k: nat): nat
    requires k <= |s.children|
    decreases f, k
  {
    if k == 0 then 0
    else TreeSizeTo(f, s, k - 1)
         + if k <= |f.Children()| then TreeSize(f.Children()[k - 1], s.children[k - 1]) else 0
  }

  lemma AlignedSum(start: nat, n: nat)
    requires start % 8 == 0
    ensures Align8(start + n) == start + Align8(n)
  {
  }

  lemma OwnSteps(start: nat, own: seq<nat>)
    requires start % 8 == 0
    ensures |own| == 0 ==> End(start, own) == start
    ensures |own| == 1 ==> End(start, own) == start + Align8(own[0])
    ensures |own| == 2 ==> End(start, own) == start + Align8(own[0]) + Align8(own[1])
    ensures |own| == 3 ==> End(start, own) == start + Align8(own[0]) + Align8(own[1]) + Align8(own[2])
  {
    EndSteps(start, own);
    if |own| > 0 {
      AlignedSum(start, own[0]);
    }
    if |own| > 1 {
      AlignedSum(start + Align8(own[0]), own[1]);
    }
    if |own| > 2 {
      AlignedSum(start + Align8(own[0]) + Align8(own[1]), own[2]);
    }
  }

  lemma OwnSize(start: nat, f: Field, s: Shape)
    requires start % 8 == 0
    ensures End(start, OwnBuffers(f, s)) == start + FieldSize(f, s.length, s.bytes)
  {
    OwnSteps(start, OwnBuffers(f, s));
  }

  /** The buffers of a field end after their padded sizes. */
  lemma {:induction false} EndIsSize(start: nat, f: Field, s: Shape, expected: Option<nat>, masked: nat)
    requires start % 8 == 0 && Fits(f, s, expected, masked)
    ensures End(start, Lengths(f, s)) == start + TreeSize(f, s)
    decreases f, |s.children| + 1, 0
  {
    OwnSize(start, f, s);
    EndConcat(start, OwnBuffers(f, s), LengthsUpTo(f, s, |s.children|));
    EndIsSizeTo(End(start, OwnBuffers(f, s)), f, s, |s.children|, expected, masked);
  }

  lemma {:induction false} EndIsSizeTo(start: nat, f: Field, s: Shape, k: nat, expected: Option<nat>, masked: nat)
    requires start % 8 == 0 && Fits(f, s, expected, masked) && k <= |s.children|
    ensures End(start, LengthsUpTo(f, s, k)) == start + TreeSizeTo(f, s, k)
    decreases f, k, 1
  {
    if k > 0 {
      EndIsSizeTo(start, f, s, k - 1, expected, masked);
      var middle := End(start, LengthsUpTo(f, s, k - 1));
      ChildSize(middle, f, s, k - 1, expected, masked);
      SizeStep(start, f, s, k, middle);
    }
  }

  lemma {:induction false} ChildSize(start: nat, f: Field, s: Shape, k: nat, expected: Option<nat>, masked: nat)
    requires start % 8 == 0 && Fits(f, s, expected, masked) && k < |s.children|
    ensures |s.children| == |f.Children()| && |s.children[k].children| == |f.Children()[k].Children()|
    ensures End(start, Lengths(f.Children()[k], s.children[k])) == start + TreeSize(f.Children()[k], s.children[k])
    decreases f, k + 1, 0
  {
    assert Fits(f.Children()[k], s.children[k], ChildRows(f, s), Masking(f, s));
    EndIsSize(start, f.Children()[k], s.children[k], ChildRows(f, s), Masking(f, s));
  }

  lemma SizeStep(start: nat, f: Field, s: Shape, k: nat, middle: nat)
    requires 0 < k <= |s.children| == |f.Children()|
    requires |s.children[k - 1].children| == |f.Children()[k - 1].Children()|
    requires middle == End(start, LengthsUpTo(f, s, k - 1)) == start + TreeSizeTo(f, s, k - 1)
    requires End(middle, Lengths(f.Children()[k - 1], s.children[k - 1]))
        == middle + TreeSize(f.Children()[k - 1], s.children[k - 1])
    ensures End(start, LengthsUpTo(f, s, k)) == start + TreeSizeTo(f, s, k)
  {
    EndConcat(start, LengthsUpTo(f, s, k - 1), Lengths(f.Children()[k - 1], s.children[k - 1]));
  }

  /** The padded size of exactly the rows of the first `k` columns. */
  function ColumnsSize(fields: seq<Field>, rows: nat, columns: seq<ArrayData>, k: nat): nat
    requires k <= |fields| == |columns|
  {
    if k == 0 then 0
    else ColumnsSize(fields, rows, columns, k - 1)
         + TreeSize(fields[k - 1], SlotShape(fields[k - 1], columns[k - 1], Range(0, rows)))
  }

  /** The padded size of a change: of every slot its rows reach in its columns, the differences first. */
  ghost function SlotBytes(fields: seq<Field>, diffs: ArrayData, columns: seq<ArrayData>): nat
    requires |fields| == |columns|
  {
    ColumnsSize([DIFFERENCES] + fields, diffs.length, [diffs] + columns, |fields| + 1)
  }

  /** Child `k` of the shape is that of the rows of column `k`. */
  ghost predicate ColumnAt(fields: seq<Field>, rows: nat, columns: seq<ArrayData>, s: Shape, k: nat)
    requires |s.children| == |fields| == |columns|
  {
    k < |fields| ==> s.children[k] == SlotShape(fields[k], columns[k], Range(0, rows))
  }

  lemma {:induction false} ColumnsSum(fields: seq<Field>, rows: nat, columns: seq<ArrayData>, s: Shape, k: nat)
    requires |s.children| == |fields| == |columns| && k <= |fields|
    requires forall j :: 0 <= j < k ==> ColumnAt(fields, rows, columns, s, j)
    ensures TreeSizeTo(Root(fields), s, k) == ColumnsSize(fields, rows, columns, k)
  {
    if k > 0 {
      ColumnsSum(fields, rows, columns, s, k - 1);
      assert ColumnAt(fields, rows, columns, s, k - 1);
    }
  }

  lemma ColumnShape(fields: seq<Field>, diffs: ArrayData, columns: seq<ArrayData>, k: nat)
    requires WellFormedChange(fields, diffs, columns) && k <= |fields|
    ensures |ChangeShape(fields, diffs, columns).children| == |fields| + 1
    ensures ColumnAt(Physical(fields), diffs.length, [diffs] + columns, ChangeShape(fields, diffs, columns), k)
  {
    RootWellFormed(fields, diffs, columns);
    var root, a, mask := Root(Physical(fields)), RootArray(diffs, columns), NoMask(diffs.length);
    FieldShape(root, Physical(fields), a, mask, k);
    ShapeIsSlotwise(Physical(fields)[k], a.children[k], Mask(a));
  }

  /** The true size of the body is that of the slots its rows reach. */
  lemma BodyIsSlotwise(fields: seq<Field>, diffs: ArrayData, columns: seq<ArrayData>)
    requires WellFormedChange(fields, diffs, columns)
    ensures BodyBytes(fields, diffs, columns) == SlotBytes(fields, diffs, columns)
  {
    var s, root, n := ChangeShape(fields, diffs, columns), Root(Physical(fields)), |fields| + 1;
    ChangeIsCanonical(fields, diffs, columns);
    forall k | 0 <= k < n
      ensures ColumnAt(Physical(fields), diffs.length, [diffs] + columns, s, k)
    {
      ColumnShape(fields, diffs, columns, k);
    }
    ColumnsSum(Physical(fields), diffs.length, [diffs] + columns, s, n);
    EndIsSizeTo(0, root, s, n, Some(diffs.length), 0);
  }

  /** Succeeds with the true size of the body exactly when that is within the limit: charging the
      differences first keeps every later length far from overflow. */
  method BodyLenBounded(fields: seq<Field>, diffs: ArrayData, columns: seq<ArrayData>, maxBytes: nat)
    returns (r: Option<nat>)
    requires WellFormedChange(fields, diffs, columns) && maxBytes <= MAX_USIZE
    ensures r == if BodyBytes(fields, diffs, columns) <= maxBytes then Some(BodyBytes(fields, diffs, columns)) else None
    ensures r == if SlotBytes(fields, diffs, columns) <= maxBytes then Some(SlotBytes(fields, diffs, columns)) else None
  {
    BodyIsSlotwise(fields, diffs, columns);
    RootStarts(fields, diffs, columns);
    var budget := new BodyBudget(maxBytes);
    ghost var root, a, mask := Root(Physical(fields)), RootArray(diffs, columns), NoMask(diffs.length);
    var ok := VisitField(budget, DIFFERENCES, diffs, root, Physical(fields), a, mask, 0, 0);
    if ok {
      DifferencesBound(fields, diffs, columns, maxBytes);
      assert Physical(fields)[1..] == fields && a.children[1..] == columns;
      ok := VisitEach(budget, fields, columns, root, Physical(fields), a, mask, 1, 0);
    }
    r := if ok then Some(budget.bytes) else None;
  }

  lemma RootStarts(fields: seq<Field>, diffs: ArrayData, columns: seq<ArrayData>)
    requires WellFormedChange(fields, diffs, columns)
    ensures var root, a, mask := Root(Physical(fields)), RootArray(diffs, columns), NoMask(diffs.length);
      && WellFormed(root, a, mask) && Reach(root, a, mask, 0, 0) == 0
      && Reach(root, a, mask, |fields| + 1, 0) == BodyBytes(fields, diffs, columns)
  {
    RootWellFormed(fields, diffs, columns);
    assert LengthsUpTo(Root(Physical(fields)), ChangeShape(fields, diffs, columns), 0) == [];
  }

  /** Once the differences fit, the row count is far from overflowing. */
  lemma DifferencesBound(fields: seq<Field>, diffs: ArrayData, columns: seq<ArrayData>, maxBytes: nat)
    requires WellFormedChange(fields, diffs, columns)
    requires WellFormed(Root(Physical(fields)), RootArray(diffs, columns), NoMask(diffs.length))
    requires Reach(Root(Physical(fields)), RootArray(diffs, columns), NoMask(diffs.length), 1, 0)
        <= maxBytes <= MAX_USIZE
    ensures diffs.length <= MAX_USIZE - 7
  {
    var root, a, mask := Root(Physical(fields)), RootArray(diffs, columns), NoMask(diffs.length);
    RootStarts(fields, diffs, columns);
    FieldStep(root, Physical(fields), a, mask, 0, 0);
    DifferencesSize(diffs, Mask(a));
  }

  lemma DifferencesSize(diffs: ArrayData, mask: seq<bool>)
    requires WellFormed(DIFFERENCES, diffs, mask)
    ensures End(0, Lengths(DIFFERENCES, ShapeOf(DIFFERENCES, diffs, mask))) >= diffs.length * 8
  {
    var s := ShapeOf(DIFFERENCES, diffs, mask);
    assert LengthsUpTo(DIFFERENCES, s, 0) == [];
    assert Lengths(DIFFERENCES, s) == [BitmapBytes(diffs.length), diffs.length * 8];
    EndSteps(0, [BitmapBytes(diffs.length), diffs.length * 8]);
  }
}
