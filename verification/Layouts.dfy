/** Columnar batch layout: the field nodes and body buffers of a batch, in pre-order, following
    the RecordBatch message of the Apache Arrow Columnar Format. */
module Layouts {
  import opened Options
  import opened Sequences

  const MAX_USIZE: int := 0xffff_ffff_ffff_ffff
  const MAX_ISIZE: int := 0x7fff_ffff_ffff_ffff

  datatype Layout =
    | NullLayout
    | Bitmap
    | FixedWidth(width: nat)
    | VariableWidth
    | ListOf(child: Field)
    | StructOf(fields: seq<Field>)
    | Unsupported

  datatype Field = Field(nullable: bool, layout: Layout)
  {
    function Children(): seq<Field>
    {
      match layout
      case ListOf(child) => [child]
      case StructOf(fields) => fields
      case _ => []
    }
  }

  /** What the descriptors of one field say: its rows, its nulls, and, for variable-width data,
      its bytes. */
  datatype Shape = Shape(length: nat, nulls: nat, bytes: nat, children: seq<Shape>)

  datatype Node = Node(length: int, nulls: int)

  datatype Buffer = Buffer(offset: int, length: int)

  function BitmapBytes(length: nat): nat
  {
    (length + 7) / 8
  }

  /** They are the fewest bytes with a bit for every row. */
  lemma BitmapFewest(length: nat)
    ensures 8 * BitmapBytes(length) >= length
    ensures forall n: nat :: 8 * n >= length ==> BitmapBytes(length) <= n
    ensures length > 0 ==> 8 * (BitmapBytes(length) - 1) < length
  {
  }

  function Align8(n: nat): (r: nat)
    ensures r % 8 == 0 && n <= r < n + 8
  {
    (n + 7) / 8 * 8
  }

  /** The constraint a parent puts on the row count of its children. */
  function ChildRows(f: Field, s: Shape): Option<nat>
  {
    if f.layout.StructOf? then Some(s.length) else None
  }

  /** The nulls of a parent that may mask nulls of a non-nullable child. */
  function Masking(f: Field, s: Shape): nat
  {
    if f.layout.StructOf? then s.nulls else 0
  }

  /** The checks on the row and null counts of one field. */
  predicate NodeOk(f: Field, length: int, nulls: int, expected: Option<nat>, masked: nat)
  {
    && !f.layout.Unsupported?
    && 0 <= nulls <= length
    && (f.layout.NullLayout? || f.nullable || nulls <= masked)
    && (expected.Some? ==> length == expected.value)
    && (f.layout.NullLayout? ==> nulls == length)
  }

  predicate FitsRow(f: Field, s: Shape, expected: Option<nat>, masked: nat)
  {
    NodeOk(f, s.length, s.nulls, expected, masked) && (!f.layout.VariableWidth? ==> s.bytes == 0)
  }

  /** The shape is one the field admits. */
  predicate Fits(f: Field, s: Shape, expected: Option<nat>, masked: nat)
    decreases f
  {
    && FitsRow(f, s, expected, masked)
    && |s.children| == |f.Children()|
    && forall k {:trigger Fits(f.Children()[k], s.children[k], ChildRows(f, s), Masking(f, s))} ::
         0 <= k < |s.children| ==>
         Fits(f.Children()[k], s.children[k], ChildRows(f, s), Masking(f, s))
  }

  /** The lengths of the buffers a field has of its own. */
  function OwnBuffers(f: Field, s: Shape): seq<nat>
  {
    match f.layout
    case Bitmap => [BitmapBytes(s.length), BitmapBytes(s.length)]
    case FixedWidth(width) => [BitmapBytes(s.length), s.length * width]
    case VariableWidth => [BitmapBytes(s.length), (s.length + 1) * 4, s.bytes]
    case ListOf(_) => [BitmapBytes(s.length), (s.length + 1) * 4]
    case StructOf(_) => [BitmapBytes(s.length)]
    case _ => []
  }

  function Nodes(f: Field, s: Shape): seq<Node>
    requires |s.children| <= |f.Children()|
    decreases f, |s.children| + 1
  {
    [Node(s.length, s.nulls)] + NodesUpTo(f, s, |s.children|)
  }

  /** The nodes of the first `k` children. */
  function NodesUpTo(f: Field, s: Shape, k: nat): seq<Node>
    requires k <= |s.children| <= |f.Children()|
    decreases f, k
  {
    if k == 0 then []
    else NodesUpTo(f, s, k - 1)
         + if |s.children[k - 1].children| <= |f.Children()[k - 1].Children()|
         then Nodes(f.Children()[k - 1], s.children[k - 1])
         else []
  }

  function Lengths(f: Field, s: Shape): seq<nat>
    requires |s.children| <= |f.Children()|
    decreases f, |s.children| + 1
  {
    OwnBuffers(f, s) + LengthsUpTo(f, s, |s.children|)
  }

  /** The buffer lengths of the first `k` children. */
  function LengthsUpTo(f: Field, s: Shape, k: nat): seq<nat>
    requires k <= |s.children| <= |f.Children()|
    decreases f, k
  {
    if k == 0 then []
    else LengthsUpTo(f, s, k - 1)
         + if |s.children[k - 1].children| <= |f.Children()[k - 1].Children()|
         then Lengths(f.Children()[k - 1], s.children[k - 1])
         else []
  }

  /** Where the next buffer goes after buffers of the given lengths. */
  function End(start: nat, lengths: seq<nat>): (r: nat)
    ensures start % 8 == 0 ==> r % 8 == 0
    ensures start <= r
  {
    if lengths == [] then start else Align8(End(start, lengths[..|lengths| - 1]) + lengths[|lengths| - 1])
  }

  /** The canonical descriptors of buffers of the given lengths. */
  function Place(start: nat, lengths: seq<nat>): (bs: seq<Buffer>)
    ensures |bs| == |lengths|
  {
    if lengths == [] then [] else
      var last := |lengths| - 1;
      Place(start, lengths[..last]) + [Buffer(End(start, lengths[..last]), lengths[last])]
  }

  lemma {:induction false} EndConcat(start: nat, a: seq<nat>, b: seq<nat>)
    ensures End(start, a + b) == End(End(start, a), b)
    decreases |b|
  {
    if b == [] {
      assert a + b == a;
    } else {
      assert (a + b)[..|a + b| - 1] == a + b[..|b| - 1];
      EndConcat(start, a, b[..|b| - 1]);
    }
  }

  lemma {:induction false} PlaceConcat(start: nat, a: seq<nat>, b: seq<nat>)
    ensures Place(start, a + b) == Place(start, a) + Place(End(start, a), b)
    decreases |b|
  {
    if b == [] {
      assert a + b == a;
    } else {
      assert (a + b)[..|a + b| - 1] == a + b[..|b| - 1];
      PlaceConcat(start, a, b[..|b| - 1]);
      EndConcat(start, a, b[..|b| - 1]);
    }
  }

  lemma {:induction false} PlaceAt(start: nat, lengths: seq<nat>, k: nat)
    requires k < |lengths|
    ensures Place(start, lengths)[k] == Buffer(End(start, lengths[..k]), lengths[k])
  {
    var last := |lengths| - 1;
    if k < last {
      PlaceAt(start, lengths[..last], k);
      assert lengths[..last][..k] == lengths[..k];
    }
  }

  lemma {:induction false} EndGrows(start: nat, lengths: seq<nat>, j: nat, k: nat)
    requires j < k <= |lengths|
    ensures End(start, lengths[..j]) + lengths[j] <= End(start, lengths[..k])
    decreases k
  {
    var init := lengths[..k];
    assert init[..|init| - 1] == lengths[..k - 1] && init[|init| - 1] == lengths[k - 1];
    if j < k - 1 {
      EndGrows(start, lengths, j, k - 1);
    }
  }

  /** Canonical buffers are ordered, aligned and disjoint, and stay in the body. */
  lemma PlacementSound(lengths: seq<nat>, j: nat, k: nat)
    requires j < k < |lengths|
    ensures var bs := Place(0, lengths);
      && bs[j].offset % 8 == 0 && bs[k].offset % 8 == 0
      && 0 <= bs[j].offset && bs[j].offset + bs[j].length <= bs[k].offset
      && bs[k].offset + bs[k].length <= End(0, lengths)
  {
    PlaceAt(0, lengths, j);
    PlaceAt(0, lengths, k);
    EndGrows(0, lengths, j, k);
    assert lengths[..|lengths|] == lengths;
    EndGrows(0, lengths, k, |lengths|);
  }

  /** They tile the body: the first starts it, and every gap, also the last, is under eight bytes. */
  lemma PlacementTiles(lengths: seq<nat>, k: nat)
    requires k < |lengths|
    ensures var bs := Place(0, lengths);
      && bs[0].offset == 0
      && var next := if k + 1 < |lengths| then bs[k + 1].offset else End(0, lengths);
         0 <= next - (bs[k].offset + bs[k].length) < 8
  {
    PlaceAt(0, lengths, 0);
    PlaceAt(0, lengths, k);
    EndNext(lengths, k);
    if k + 1 < |lengths| {
      PlaceAt(0, lengths, k + 1);
    }
  }

  lemma EndNext(lengths: seq<nat>, k: nat)
    requires k < |lengths|
    ensures 0 <= End(0, lengths[..k + 1]) - (End(0, lengths[..k]) + lengths[k]) < 8
    ensures k + 1 == |lengths| ==> lengths[..k + 1] == lengths
    ensures End(0, lengths[..0]) == 0
  {
    var upTo := lengths[..k + 1];
    assert upTo[..k] == lengths[..k] && upTo[k] == lengths[k];
  }

  // ---- Descriptors determine shapes ---------------------------------------

  /** The variable-width byte counts of a field, in pre-order. */
  function Variable(f: Field, s: Shape): seq<nat>
    requires |s.children| <= |f.Children()|
    decreases f, |s.children| + 1
  {
    (if f.layout.VariableWidth? then [s.bytes] else []) + VariableUpTo(f, s, |s.children|)
  }

  function VariableUpTo(f: Field, s: Shape, k: nat): seq<nat>
    requires k <= |s.children| <= |f.Children()|
    decreases f, k
  {
    if k == 0 then []
    else VariableUpTo(f, s, k - 1)
         + if |s.children[k - 1].children| <= |f.Children()[k - 1].Children()|
         then Variable(f.Children()[k - 1], s.children[k - 1])
         else []
  }

  /** Either all buffer lengths of a field or only the variable ones. */
  function Stream(all: bool, f: Field, s: Shape): seq<nat>
    requires |s.children| <= |f.Children()|
  {
    if all then Lengths(f, s) else Variable(f, s)
  }

  function OwnStream(all: bool, f: Field, s: Shape): seq<nat>
  {
    if all then OwnBuffers(f, s) else if f.layout.VariableWidth? then [s.bytes] else []
  }

  function StreamUpTo(all: bool, f: Field, s: Shape, k: nat): seq<nat>
    requires k <= |s.children| <= |f.Children()|
  {
    if all then LengthsUpTo(f, s, k) else VariableUpTo(f, s, k)
  }

  /** Nodes together with buffer lengths - all, or the variable ones alone - determine the shape,
      and where the descriptors of the field end. */
  lemma {:induction false} ShapeDetermined(all: bool, f: Field, s: Shape, t: Shape, e: Option<nat>, m: nat,
                                           a: seq<Node>, b: seq<Node>, c: seq<nat>, d: seq<nat>)
    requires Fits(f, s, e, m) && Fits(f, t, e, m)
    requires Nodes(f, s) + a == Nodes(f, t) + b && Stream(all, f, s) + c == Stream(all, f, t) + d
    ensures s == t && a == b && c == d
    decreases f, |f.Children()| + 1
  {
    var n := |f.Children()|;
    assert (Nodes(f, s) + a)[0] == Node(s.length, s.nulls) && (Nodes(f, t) + b)[0] == Node(t.length, t.nulls);
    Assoc([Node(s.length, s.nulls)], NodesUpTo(f, s, n), a);
    Assoc([Node(t.length, t.nulls)], NodesUpTo(f, t, n), b);
    SplitEqual([Node(s.length, s.nulls)], NodesUpTo(f, s, n) + a, [Node(t.length, t.nulls)], NodesUpTo(f, t, n) + b);
    Assoc(OwnStream(all, f, s), StreamUpTo(all, f, s, n), c);
    Assoc(OwnStream(all, f, t), StreamUpTo(all, f, t, n), d);
    SplitEqual(OwnStream(all, f, s), StreamUpTo(all, f, s, n) + c, OwnStream(all, f, t), StreamUpTo(all, f, t, n) + d);
    OwnDetermined(all, f, s, t);
    ChildrenDetermined(all, f, s, t, n, a, b, c, d);
    assert s.children[..n] == s.children && t.children[..n] == t.children;
  }

  lemma OwnDetermined(all: bool, f: Field, s: Shape, t: Shape)
    requires OwnStream(all, f, s) == OwnStream(all, f, t) && (!f.layout.VariableWidth? ==> s.bytes == t.bytes)
    ensures s.bytes == t.bytes
  {
    if f.layout.VariableWidth? {
      assert OwnStream(all, f, s)[if all then 2 else 0] == s.bytes;
      assert OwnStream(all, f, t)[if all then 2 else 0] == t.bytes;
    }
  }

  /** The descriptors of the last of `k` children come at the end. */
  lemma UpToLast(all: bool, f: Field, s: Shape, k: nat, a: seq<Node>, c: seq<nat>)
    requires 0 < k <= |s.children| <= |f.Children()| && |s.children[k - 1].children| <= |f.Children()[k - 1].Children()|
    ensures NodesUpTo(f, s, k) + a == NodesUpTo(f, s, k - 1) + (Nodes(f.Children()[k - 1], s.children[k - 1]) + a)
    ensures StreamUpTo(all, f, s, k) + c
        == StreamUpTo(all, f, s, k - 1) + (Stream(all, f.Children()[k - 1], s.children[k - 1]) + c)
  {
    Assoc(NodesUpTo(f, s, k - 1), Nodes(f.Children()[k - 1], s.children[k - 1]), a);
    Assoc(StreamUpTo(all, f, s, k - 1), Stream(all, f.Children()[k - 1], s.children[k - 1]), c);
  }

  /** The first `k` children fit. */
  ghost predicate FirstFit(f: Field, s: Shape, k: nat)
    requires k <= |s.children| <= |f.Children()|
  {
    forall i {:trigger Fits(f.Children()[i], s.children[i], ChildRows(f, s), Masking(f, s))} :: 0 <= i < k ==>
      Fits(f.Children()[i], s.children[i], ChildRows(f, s), Masking(f, s))
  }

  lemma {:induction false} ChildrenDetermined(all: bool, f: Field, s: Shape, t: Shape, k: nat, a: seq<Node>,
                                              b: seq<Node>, c: seq<nat>, d: seq<nat>)
    requires s.length == t.length && s.nulls == t.nulls && k <= |s.children| <= |f.Children()|
    requires k <= |t.children| <= |f.Children()|
    requires FirstFit(f, s, k) && FirstFit(f, t, k)
    requires NodesUpTo(f, s, k) + a == NodesUpTo(f, t, k) + b
    requires StreamUpTo(all, f, s, k) + c == StreamUpTo(all, f, t, k) + d
    ensures s.children[..k] == t.children[..k] && a == b && c == d
    decreases f, k
  {
    if k == 0 {
      assert [] + a == a && [] + b == b && [] + c == c && [] + d == d;
    } else {
      var g, u, v := f.Children()[k - 1], s.children[k - 1], t.children[k - 1];
      assert Fits(g, u, ChildRows(f, s), Masking(f, s)) && Fits(g, v, ChildRows(f, t), Masking(f, t));
      UpToLast(all, f, s, k, a, c);
      UpToLast(all, f, t, k, b, d);
      ChildrenDetermined(all, f, s, t, k - 1, Nodes(g, u) + a, Nodes(g, v) + b, Stream(all, g, u) + c,
                         Stream(all, g, v) + d);
      ShapeDetermined(all, g, u, v, ChildRows(f, s), Masking(f, s), a, b, c, d);
      PrefixMore(s.children, t.children, k);
    }
  }
}
