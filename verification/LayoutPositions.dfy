/** Where the descriptors of every field stand in a batch: a reference definition by positions in
    the two descriptor vectors, without shapes, and its agreement with the canonical descriptors. */
module LayoutPositions {
  import opened Options
  import opened Sequences
  import opened Layouts

  /** The nodes of a field: its own and those of everything below it. */
  function NodeCount(f: Field): nat
    decreases f, |f.Children()| + 1
  {
    1 + NodeCountTo(f, |f.Children()|)
  }

  function NodeCountTo(f: Field, k: nat): nat
    requires k <= |f.Children()|
    decreases f, k
  {
    if k == 0 then 0 else NodeCountTo(f, k - 1) + NodeCount(f.Children()[k - 1])
  }

  function OwnCount(layout: Layout): nat
  {
    match layout
    case Bitmap => 2
    case FixedWidth(_) => 2
    case VariableWidth => 3
    case ListOf(_) => 2
    case StructOf(_) => 1
    case _ => 0
  }

  /** The buffers of a field: its own and those of everything below it. */
  function BufferCount(f: Field): nat
    decreases f, |f.Children()| + 1
  {
    OwnCount(f.layout) + BufferCountTo(f, |f.Children()|)
  }

  function BufferCountTo(f: Field, k: nat): nat
    requires k <= |f.Children()|
    decreases f, k
  {
    if k == 0 then 0 else BufferCountTo(f, k - 1) + BufferCount(f.Children()[k - 1])
  }

  /** The buffers from `b` on are those of `rows` rows: a bit for every row, and after it a bit, a
      value of fixed width, or an offset and one more. Only variable-width values have any length. */
  predicate OwnStands(layout: Layout, rows: int, buffers: seq<Buffer>, b: nat)
    requires rows >= 0
  {
    && b + OwnCount(layout) <= |buffers|
    && (OwnCount(layout) > 0 ==> buffers[b].length == BitmapBytes(rows))
    && match layout
       case Bitmap => buffers[b + 1].length == BitmapBytes(rows)
       case FixedWidth(width) => buffers[b + 1].length == rows * width
       case VariableWidth => buffers[b + 1].length == 4 * (rows + 1) && buffers[b + 2].length >= 0
       case ListOf(_) => buffers[b + 1].length == 4 * (rows + 1)
       case _ => true
  }

  /** Node `n` says how many rows and nulls the field has, and they are admitted. */
  predicate NodeStands(f: Field, nodes: seq<Node>, n: nat, expected: Option<nat>, masked: int)
  {
    && n < |nodes| && !f.layout.Unsupported?
    && 0 <= nodes[n].nulls <= nodes[n].length
    && (expected.Some? ==> nodes[n].length == expected.value)
    && (f.layout.NullLayout? ==> nodes[n].nulls == nodes[n].length)
    && (!f.layout.NullLayout? && !f.nullable ==> nodes[n].nulls <= masked)
  }

  /** The descriptors of the field start at node `n` and buffer `b`; those of its children follow in
      order. The fields of a struct have its rows, and may only be null under its nulls if they are
      not nullable; the child of a list has any rows. */
  ghost predicate FieldStands(f: Field, nodes: seq<Node>, buffers: seq<Buffer>, n: nat, b: nat, expected: Option<nat>,
                              masked: int)
    decreases f
  {
    && NodeStands(f, nodes, n, expected, masked)
    && OwnStands(f.layout, nodes[n].length, buffers, b)
    && forall k :: 0 <= k < |f.Children()| ==> ChildStands(f, nodes, buffers, n, b, k)
  }

  ghost predicate ChildStands(f: Field, nodes: seq<Node>, buffers: seq<Buffer>, n: nat, b: nat, k: nat)
    requires n < |nodes| && nodes[n].length >= 0 && k < |f.Children()|
    decreases f, 0
  {
    FieldStands(f.Children()[k], nodes, buffers, n + 1 + NodeCountTo(f, k),
                b + OwnCount(f.layout) + BufferCountTo(f, k),
                if f.layout.StructOf? then Some(nodes[n].length) else None,
                if f.layout.StructOf? then nodes[n].nulls else 0)
  }

  /** The buffers follow each other from the start of the body to its end, each padded to eight bytes. */
  predicate Tiled(buffers: seq<Buffer>, bodyLen: nat)
  {
    && (forall k :: 0 <= k < |buffers| ==> buffers[k].length >= 0 && buffers[k].offset == EndBefore(buffers, k))
    && bodyLen == EndBefore(buffers, |buffers|)
  }

  function EndBefore(buffers: seq<Buffer>, k: nat): int
    requires k <= |buffers|
  {
    if k == 0 then 0 else
      var end := buffers[k - 1].offset + buffers[k - 1].length;
      if end >= 0 then Align8(end) else 0
  }

  /** The descriptors of a batch: one column after the other, and nothing else. */
  ghost predicate Stands(fields: seq<Field>, rows: nat, nodes: seq<Node>, buffers: seq<Buffer>, bodyLen: nat)
  {
    var root := Field(false, StructOf(fields));
    && |nodes| == NodeCountTo(root, |fields|) && |buffers| == BufferCountTo(root, |fields|)
    && Tiled(buffers, bodyLen)
    && forall k :: 0 <= k < |fields| ==> ColumnStands(fields, rows, nodes, buffers, k)
  }

  ghost predicate ColumnStands(fields: seq<Field>, rows: nat, nodes: seq<Node>, buffers: seq<Buffer>, k: nat)
    requires k < |fields|
  {
    var root := Field(false, StructOf(fields));
    FieldStands(fields[k], nodes, buffers, NodeCountTo(root, k), BufferCountTo(root, k), Some(rows), 0)
  }

  // ---- Placement -----------------------------------------------------------

  function LengthsOf(buffers: seq<Buffer>): (r: seq<nat>)
    ensures |r| == |buffers|
  {
    seq(|buffers|, k requires 0 <= k < |buffers| => if buffers[k].length >= 0 then buffers[k].length else 0)
  }

  lemma {:induction false} TiledEnds(buffers: seq<Buffer>, bodyLen: nat, k: nat)
    requires Tiled(buffers, bodyLen) && k <= |buffers|
    ensures End(0, LengthsOf(buffers)[..k]) == EndBefore(buffers, k)
  {
    if k > 0 {
      TiledEnds(buffers, bodyLen, k - 1);
      assert LengthsOf(buffers)[..k][..k - 1] == LengthsOf(buffers)[..k - 1];
    }
  }

  lemma TiledIsPlaced(buffers: seq<Buffer>, bodyLen: nat)
    requires Tiled(buffers, bodyLen)
    ensures buffers == Place(0, LengthsOf(buffers)) && bodyLen == End(0, LengthsOf(buffers))
  {
    var ls := LengthsOf(buffers);
    forall k | 0 <= k < |buffers|
      ensures buffers[k] == Place(0, ls)[k]
    {
      TiledEnds(buffers, bodyLen, k);
      PlaceAt(0, ls, k);
    }
    TiledEnds(buffers, bodyLen, |buffers|);
    assert ls[..|buffers|] == ls;
  }

  lemma PlacedAt(ls: seq<nat>, k: nat)
    requires k < |ls|
    ensures Place(0, ls)[k].length == ls[k] && Place(0, ls)[k].offset == EndBefore(Place(0, ls), k)
  {
    PlaceAt(0, ls, k);
    if k > 0 {
      PlaceAt(0, ls, k - 1);
      assert ls[..k][..k - 1] == ls[..k - 1];
    }
  }

  /** A placed buffer ends, padded, where the next one starts. */
  lemma PlacedNext(ls: seq<nat>, k: nat, bs: seq<Buffer>)
    requires k < |ls| && bs == Place(0, ls)
    ensures EndBefore(bs, k + 1) == End(0, ls[..k + 1])
  {
    PlaceAt(0, ls, k);
    assert ls[..k + 1][..k] == ls[..k] && ls[..k + 1][k] == ls[k];
    assert bs[k].offset + bs[k].length == End(0, ls[..k]) + ls[k];
  }

  lemma PlacedEnd(ls: seq<nat>, bs: seq<Buffer>)
    requires bs == Place(0, ls)
    ensures EndBefore(bs, |ls|) == End(0, ls)
  {
    if ls != [] {
      PlacedNext(ls, |ls| - 1, bs);
      assert ls[..|ls|] == ls;
    }
  }

  lemma PlacedLengths(ls: seq<nat>)
    ensures LengthsOf(Place(0, ls)) == ls
  {
    forall k | 0 <= k < |ls|
      ensures LengthsOf(Place(0, ls))[k] == ls[k]
    {
      PlacedAt(ls, k);
    }
  }

  lemma PlacedIsTiled(ls: seq<nat>)
    ensures Tiled(Place(0, ls), End(0, ls))
  {
    var bs := Place(0, ls);
    PlacedEnd(ls, bs);
    forall k | 0 <= k < |bs|
      ensures bs[k].length >= 0 && bs[k].offset == EndBefore(bs, k)
    {
      PlacedAt(ls, k);
    }
  }

  // ---- The descriptors of a shape -------------------------------------------

  lemma {:induction false} Counts(f: Field, s: Shape, expected: Option<nat>, masked: nat)
    requires Fits(f, s, expected, masked)
    ensures |Nodes(f, s)| == NodeCount(f) && |Lengths(f, s)| == BufferCount(f)
    decreases f, |f.Children()| + 1
  {
    CountsTo(f, s, |f.Children()|, expected, masked);
  }

  lemma {:induction false} CountsTo(f: Field, s: Shape, k: nat, expected: Option<nat>, masked: nat)
    requires Fits(f, s, expected, masked) && k <= |f.Children()|
    ensures |NodesUpTo(f, s, k)| == NodeCountTo(f, k) && |LengthsUpTo(f, s, k)| == BufferCountTo(f, k)
    decreases f, k
  {
    if k > 0 {
      CountsTo(f, s, k - 1, expected, masked);
      assert Fits(f.Children()[k - 1], s.children[k - 1], ChildRows(f, s), Masking(f, s));
      Counts(f.Children()[k - 1], s.children[k - 1], ChildRows(f, s), Masking(f, s));
    }
  }

  /** A piece of a piece. */
  lemma Within<T>(all: seq<T>, start: nat, xs: seq<T>, from: nat, to: nat)
    requires from <= to <= |xs| && start + |xs| <= |all| && all[start..start + |xs|] == xs
    ensures all[start + from..start + to] == xs[from..to]
  {
    forall j | 0 <= j < to - from
      ensures all[start + from..start + to][j] == xs[from..to][j]
    {
      assert all[start..start + |xs|][from + j] == all[start + from + j];
    }
  }

  lemma ChildFits(f: Field, s: Shape, k: nat, expected: Option<nat>, masked: nat)
    requires Fits(f, s, expected, masked) && k < |f.Children()|
    ensures |s.children| == |f.Children()| && Fits(f.Children()[k], s.children[k], ChildRows(f, s), Masking(f, s))
    ensures |s.children[k].children| == |f.Children()[k].Children()|
  {
    assert Fits(f.Children()[k], s.children[k], ChildRows(f, s), Masking(f, s));
  }

  /** The descriptors of the first `k` of `n` children come first, and then those of child `k`. */
  lemma {:induction false} ChildPrefix(f: Field, s: Shape, k: nat, n: nat, expected: Option<nat>, masked: nat)
    requires Fits(f, s, expected, masked) && k <= n <= |f.Children()|
    ensures NodesUpTo(f, s, k) <= NodesUpTo(f, s, n) && LengthsUpTo(f, s, k) <= LengthsUpTo(f, s, n)
    decreases n
  {
    if k < n {
      ChildPrefix(f, s, k, n - 1, expected, masked);
    }
  }

  /** The nodes of child `k` among those of its siblings. */
  lemma ChildNodes(f: Field, s: Shape, k: nat, n: nat, expected: Option<nat>, masked: nat)
    requires Fits(f, s, expected, masked) && k < n <= |f.Children()|
    ensures |s.children| == |f.Children()| && |s.children[k].children| == |f.Children()[k].Children()|
    ensures NodeCountTo(f, k) <= NodeCountTo(f, k + 1) <= |NodesUpTo(f, s, n)|
    ensures NodesUpTo(f, s, n)[NodeCountTo(f, k)..NodeCountTo(f, k + 1)] == Nodes(f.Children()[k], s.children[k])
  {
    ChildFits(f, s, k, expected, masked);
    CountsTo(f, s, k, expected, masked);
    CountsTo(f, s, k + 1, expected, masked);
    ChildPrefix(f, s, k + 1, n, expected, masked);
    Cuts(NodesUpTo(f, s, k), Nodes(f.Children()[k], s.children[k]), NodesUpTo(f, s, n));
  }

  /** The buffer lengths of child `k` among those of its siblings. */
  lemma ChildLengths(f: Field, s: Shape, k: nat, n: nat, expected: Option<nat>, masked: nat)
    requires Fits(f, s, expected, masked) && k < n <= |f.Children()|
    ensures |s.children| == |f.Children()| && |s.children[k].children| == |f.Children()[k].Children()|
    ensures BufferCountTo(f, k) <= BufferCountTo(f, k + 1) <= |LengthsUpTo(f, s, n)|
    ensures LengthsUpTo(f, s, n)[BufferCountTo(f, k)..BufferCountTo(f, k + 1)]
        == Lengths(f.Children()[k], s.children[k])
  {
    ChildFits(f, s, k, expected, masked);
    CountsTo(f, s, k, expected, masked);
    CountsTo(f, s, k + 1, expected, masked);
    ChildPrefix(f, s, k + 1, n, expected, masked);
    Cuts(LengthsUpTo(f, s, k), Lengths(f.Children()[k], s.children[k]), LengthsUpTo(f, s, n));
  }

  lemma Cuts<T>(a: seq<T>, b: seq<T>, all: seq<T>)
    requires a + b <= all
    ensures all[|a|..|a + b|] == b
  {
    assert all[..|a + b|] == a + b;
  }

  /** The lengths from `b` on are the given ones. */
  ghost predicate LengthsAt(buffers: seq<Buffer>, b: nat, ls: seq<nat>)
  {
    b + |ls| <= |buffers| && forall k :: 0 <= k < |ls| ==> buffers[b + k].length == ls[k]
  }

  ghost predicate NodesAt(nodes: seq<Node>, n: nat, ns: seq<Node>)
  {
    n + |ns| <= |nodes| && nodes[n..n + |ns|] == ns
  }

  lemma OwnStandsIff(f: Field, s: Shape, buffers: seq<Buffer>, b: nat)
    requires LengthsAt(buffers, b, OwnBuffers(f, s))
    ensures OwnStands(f.layout, s.length, buffers, b)
  {
    var own := OwnBuffers(f, s);
    assert |own| > 0 ==> buffers[b + 0].length == own[0];
    assert |own| > 1 ==> buffers[b + 1].length == own[1];
    assert |own| > 2 ==> buffers[b + 2].length == own[2];
  }

  lemma PieceAt(buffers: seq<Buffer>, b: nat, ls: seq<nat>, from: nat, to: nat)
    requires LengthsAt(buffers, b, ls) && from <= to <= |ls|
    ensures LengthsAt(buffers, b + from, ls[from..to])
  {
    forall k | 0 <= k < to - from
      ensures buffers[b + from + k].length == ls[from..to][k]
    {
      assert buffers[b + (from + k)].length == ls[from + k];
    }
  }

  /** Where the descriptors of a fitting shape are written, the field stands. */
  lemma {:induction false} ShapeStands(f: Field, s: Shape, expected: Option<nat>, masked: nat, nodes: seq<Node>,
                                       buffers: seq<Buffer>, n: nat, b: nat)
    requires Fits(f, s, expected, masked) && NodesAt(nodes, n, Nodes(f, s)) && LengthsAt(buffers, b, Lengths(f, s))
    ensures FieldStands(f, nodes, buffers, n, b, expected, masked)
    decreases f, 1
  {
    var own := OwnBuffers(f, s);
    Counts(f, s, expected, masked);
    assert nodes[n] == nodes[n..n + |Nodes(f, s)|][0] == Node(s.length, s.nulls);
    PieceAt(buffers, b, Lengths(f, s), 0, |own|);
    assert Lengths(f, s)[..|own|] == own;
    OwnStandsIff(f, s, buffers, b);
    forall k | 0 <= k < |f.Children()|
      ensures ChildStands(f, nodes, buffers, n, b, k)
    {
      ChildShapeStands(f, s, expected, masked, nodes, buffers, n, b, k);
    }
  }

  lemma ChildNodesPlaced(f: Field, s: Shape, expected: Option<nat>, masked: nat, nodes: seq<Node>, n: nat, k: nat)
    requires Fits(f, s, expected, masked) && NodesAt(nodes, n, Nodes(f, s)) && k < |f.Children()|
    ensures |s.children| == |f.Children()| && |s.children[k].children| == |f.Children()[k].Children()|
    ensures NodesAt(nodes, n + 1 + NodeCountTo(f, k), Nodes(f.Children()[k], s.children[k]))
  {
    var all := |f.Children()|;
    ChildNodes(f, s, k, all, expected, masked);
    ChildNodesAt(nodes, n, Node(s.length, s.nulls), NodesUpTo(f, s, all), NodeCountTo(f, k), NodeCountTo(f, k + 1));
  }

  lemma ChildLengthsPlaced(f: Field, s: Shape, expected: Option<nat>, masked: nat, buffers: seq<Buffer>, b: nat,
                           k: nat)
    requires Fits(f, s, expected, masked) && LengthsAt(buffers, b, Lengths(f, s)) && k < |f.Children()|
    ensures |s.children| == |f.Children()| && |s.children[k].children| == |f.Children()[k].Children()|
    ensures LengthsAt(buffers, b + OwnCount(f.layout) + BufferCountTo(f, k), Lengths(f.Children()[k], s.children[k]))
  {
    var all := |f.Children()|;
    ChildLengths(f, s, k, all, expected, masked);
    PieceAfter(buffers, b, OwnBuffers(f, s), LengthsUpTo(f, s, all), BufferCountTo(f, k), BufferCountTo(f, k + 1));
  }

  lemma PieceAfter(buffers: seq<Buffer>, b: nat, own: seq<nat>, rest: seq<nat>, from: nat, to: nat)
    requires LengthsAt(buffers, b, own + rest) && from <= to <= |rest|
    ensures LengthsAt(buffers, b + |own| + from, rest[from..to])
  {
    forall k | 0 <= k < to - from
      ensures buffers[b + |own| + from + k].length == rest[from..to][k]
    {
      assert buffers[b + (|own| + from + k)].length == (own + rest)[|own| + from + k];
    }
  }

  lemma {:induction false} ChildShapeStands(f: Field, s: Shape, expected: Option<nat>, masked: nat, nodes: seq<Node>,
                                            buffers: seq<Buffer>, n: nat, b: nat, k: nat)
    requires Fits(f, s, expected, masked) && NodesAt(nodes, n, Nodes(f, s)) && LengthsAt(buffers, b, Lengths(f, s))
    requires k < |f.Children()| && n < |nodes| && nodes[n] == Node(s.length, s.nulls)
    ensures ChildStands(f, nodes, buffers, n, b, k)
    decreases f, 0
  {
    ChildFits(f, s, k, expected, masked);
    ChildNodesPlaced(f, s, expected, masked, nodes, n, k);
    ChildLengthsPlaced(f, s, expected, masked, buffers, b, k);
    ShapeStands(f.Children()[k], s.children[k], ChildRows(f, s), Masking(f, s), nodes, buffers,
                n + 1 + NodeCountTo(f, k), b + OwnCount(f.layout) + BufferCountTo(f, k));
  }

  lemma ChildNodesAt(nodes: seq<Node>, n: nat, head: Node, ns: seq<Node>, from: nat, to: nat)
    requires NodesAt(nodes, n, [head] + ns) && from <= to <= |ns|
    ensures NodesAt(nodes, n + 1 + from, ns[from..to])
  {
    Within(nodes, n, [head] + ns, 1 + from, 1 + to);
    assert ([head] + ns)[1 + from..1 + to] == ns[from..to];
  }

  // ---- The shape that stands ------------------------------------------------

  /** The shape of a field that stands. */
  ghost function ShapeAt(f: Field, nodes: seq<Node>, buffers: seq<Buffer>, n: nat, b: nat, expected: Option<nat>,
                         masked: int): (s: Shape)
    requires FieldStands(f, nodes, buffers, n, b, expected, masked)
    ensures s.length == nodes[n].length && s.nulls == nodes[n].nulls && |s.children| == |f.Children()|
    decreases f, 1
  {
    Shape(nodes[n].length, nodes[n].nulls, if f.layout.VariableWidth? then buffers[b + 2].length else 0,
          seq(|f.Children()|, k requires 0 <= k < |f.Children()| => ChildShapeAt(f, nodes, buffers, n, b, k)))
  }

  ghost function ChildShapeAt(f: Field, nodes: seq<Node>, buffers: seq<Buffer>, n: nat, b: nat, k: nat): (s: Shape)
    requires n < |nodes| && nodes[n].length >= 0 && k < |f.Children()| && ChildStands(f, nodes, buffers, n, b, k)
    ensures |s.children| == |f.Children()[k].Children()|
    decreases f, 0
  {
    ShapeAt(f.Children()[k], nodes, buffers, n + 1 + NodeCountTo(f, k), b + OwnCount(f.layout) + BufferCountTo(f, k),
            if f.layout.StructOf? then Some(nodes[n].length) else None,
            if f.layout.StructOf? then nodes[n].nulls else 0)
  }

  /** The descriptors of child `k` follow those of the children before it. */
  ghost predicate ChildAt(f: Field, nodes: seq<Node>, buffers: seq<Buffer>, n: nat, b: nat, s: Shape, k: nat)
  {
    && k < |f.Children()| == |s.children| && |s.children[k].children| == |f.Children()[k].Children()|
    && NodesAt(nodes, n + NodeCountTo(f, k), Nodes(f.Children()[k], s.children[k]))
    && LengthsAt(buffers, b + BufferCountTo(f, k), Lengths(f.Children()[k], s.children[k]))
  }

  /** A field that stands has the descriptors of its shape, and the shape fits. */
  lemma {:induction false} StandsAsShape(f: Field, nodes: seq<Node>, buffers: seq<Buffer>, n: nat, b: nat,
                                         expected: Option<nat>, masked: nat)
    requires FieldStands(f, nodes, buffers, n, b, expected, masked)
    ensures var s := ShapeAt(f, nodes, buffers, n, b, expected, masked);
      Fits(f, s, expected, masked) && NodesAt(nodes, n, Nodes(f, s)) && LengthsAt(buffers, b, Lengths(f, s))
    decreases f, 1
  {
    var s := ShapeAt(f, nodes, buffers, n, b, expected, masked);
    var below, after := n + 1, b + OwnCount(f.layout);
    forall k | 0 <= k < |f.Children()|
      ensures Fits(f.Children()[k], s.children[k], ChildRows(f, s), Masking(f, s))
      ensures ChildAt(f, nodes, buffers, below, after, s, k)
    {
      ChildAsShape(f, nodes, buffers, n, b, s, k);
    }
    OwnAsShape(f, s, nodes, buffers, n, b);
    FieldAsShape(f, nodes, buffers, n, b, s, expected, masked, below, after);
  }

  lemma {:induction false} ChildAsShape(f: Field, nodes: seq<Node>, buffers: seq<Buffer>, n: nat, b: nat, s: Shape,
                                        k: nat)
    requires n < |nodes| && nodes[n].length >= 0 && nodes[n].nulls >= 0 && k < |f.Children()| == |s.children|
    requires s.length == nodes[n].length && s.nulls == nodes[n].nulls && ChildStands(f, nodes, buffers, n, b, k)
    requires s.children[k] == ChildShapeAt(f, nodes, buffers, n, b, k)
    ensures Fits(f.Children()[k], s.children[k], ChildRows(f, s), Masking(f, s))
    ensures ChildAt(f, nodes, buffers, n + 1, b + OwnCount(f.layout), s, k)
    decreases f, 0
  {
    StandsAsShape(f.Children()[k], nodes, buffers, n + 1 + NodeCountTo(f, k),
                  b + OwnCount(f.layout) + BufferCountTo(f, k), ChildRows(f, s), Masking(f, s));
  }

  /** The descriptors of a field, put together from its own and those of its children. */
  lemma FieldAsShape(f: Field, nodes: seq<Node>, buffers: seq<Buffer>, n: nat, b: nat, s: Shape,
                     expected: Option<nat>, masked: nat, below: nat, after: nat)
    requires |s.children| == |f.Children()| && n < |nodes| && nodes[n] == Node(s.length, s.nulls)
    requires below == n + 1 && after == b + OwnCount(f.layout)
    requires LengthsAt(buffers, b, OwnBuffers(f, s)) && |OwnBuffers(f, s)| == OwnCount(f.layout)
    requires FitsRow(f, s, expected, masked)
    requires forall k {:trigger Fits(f.Children()[k], s.children[k], ChildRows(f, s), Masking(f, s))} ::
      0 <= k < |f.Children()| ==> Fits(f.Children()[k], s.children[k], ChildRows(f, s), Masking(f, s))
    requires forall k :: 0 <= k < |f.Children()| ==> ChildAt(f, nodes, buffers, below, after, s, k)
    ensures Fits(f, s, expected, masked) && NodesAt(nodes, n, Nodes(f, s)) && LengthsAt(buffers, b, Lengths(f, s))
  {
    assert Fits(f, s, expected, masked);
    ChildrenAsShape(f, nodes, buffers, below, after, s, |f.Children()|, expected, masked);
    JoinPieces(nodes, n, Node(s.length, s.nulls), NodesUpTo(f, s, |s.children|));
    JoinLengths(buffers, b, OwnBuffers(f, s), LengthsUpTo(f, s, |s.children|));
  }

  lemma OwnAsShape(f: Field, s: Shape, nodes: seq<Node>, buffers: seq<Buffer>, n: nat, b: nat)
    requires s.length >= 0 && OwnStands(f.layout, s.length, buffers, b)
    requires f.layout.VariableWidth? ==> s.bytes == buffers[b + 2].length
    ensures LengthsAt(buffers, b, OwnBuffers(f, s)) && |OwnBuffers(f, s)| == OwnCount(f.layout)
  {
    var own := OwnBuffers(f, s);
    forall k | 0 <= k < |own|
      ensures buffers[b + k].length == own[k]
    {
      assert k == 0 || k == 1 || k == 2;
    }
  }

  /** The descriptors of the first `k` children, one after the other. */
  lemma {:induction false} ChildrenAsShape(f: Field, nodes: seq<Node>, buffers: seq<Buffer>, n: nat, b: nat, s: Shape,
                                           k: nat, expected: Option<nat>, masked: nat)
    requires Fits(f, s, expected, masked) && k <= |f.Children()| && n <= |nodes| && b <= |buffers|
    requires forall j :: 0 <= j < k ==> ChildAt(f, nodes, buffers, n, b, s, j)
    ensures NodesAt(nodes, n, NodesUpTo(f, s, k)) && LengthsAt(buffers, b, LengthsUpTo(f, s, k))
    decreases k
  {
    if k > 0 {
      ChildrenAsShape(f, nodes, buffers, n, b, s, k - 1, expected, masked);
      NextAsShape(f, nodes, buffers, n, b, s, k - 1, expected, masked);
    }
  }

  lemma NextAsShape(f: Field, nodes: seq<Node>, buffers: seq<Buffer>, n: nat, b: nat, s: Shape, k: nat,
                    expected: Option<nat>, masked: nat)
    requires Fits(f, s, expected, masked) && ChildAt(f, nodes, buffers, n, b, s, k)
    requires NodesAt(nodes, n, NodesUpTo(f, s, k)) && LengthsAt(buffers, b, LengthsUpTo(f, s, k))
    ensures NodesAt(nodes, n, NodesUpTo(f, s, k + 1)) && LengthsAt(buffers, b, LengthsUpTo(f, s, k + 1))
  {
    CountsTo(f, s, k, expected, masked);
    JoinNodes(nodes, n, NodesUpTo(f, s, k), Nodes(f.Children()[k], s.children[k]));
    JoinLengths(buffers, b, LengthsUpTo(f, s, k), Lengths(f.Children()[k], s.children[k]));
  }

  lemma JoinNodes(nodes: seq<Node>, n: nat, xs: seq<Node>, ys: seq<Node>)
    requires NodesAt(nodes, n, xs) && NodesAt(nodes, n + |xs|, ys)
    ensures NodesAt(nodes, n, xs + ys)
  {
    assert nodes[n..n + |xs + ys|] == nodes[n..n + |xs|] + nodes[n + |xs|..n + |xs| + |ys|];
  }

  lemma JoinPieces(nodes: seq<Node>, n: nat, head: Node, ys: seq<Node>)
    requires n < |nodes| && nodes[n] == head && NodesAt(nodes, n + 1, ys)
    ensures NodesAt(nodes, n, [head] + ys)
  {
    assert nodes[n..n + 1] == [head];
    JoinNodes(nodes, n, [head], ys);
  }

  lemma JoinLengths(buffers: seq<Buffer>, b: nat, xs: seq<nat>, ys: seq<nat>)
    requires LengthsAt(buffers, b, xs) && LengthsAt(buffers, b + |xs|, ys)
    ensures LengthsAt(buffers, b, xs + ys)
  {
    forall k | 0 <= k < |xs + ys|
      ensures buffers[b + k].length == (xs + ys)[k]
    {
      if k >= |xs| {
        assert buffers[b + |xs| + (k - |xs|)].length == ys[k - |xs|];
      }
    }
  }

  // ---- Whole batches -------------------------------------------------------

  lemma LengthsAtAll(buffers: seq<Buffer>)
    requires forall k :: 0 <= k < |buffers| ==> buffers[k].length >= 0
    ensures LengthsAt(buffers, 0, LengthsOf(buffers))
  {
  }

  /** The shape of a batch that stands. */
  ghost function BatchShapeAt(fields: seq<Field>, rows: nat, nodes: seq<Node>, buffers: seq<Buffer>): (s: Shape)
    requires forall k :: 0 <= k < |fields| ==> ColumnStands(fields, rows, nodes, buffers, k)
    ensures s.length == rows && s.nulls == 0 && s.bytes == 0 && |s.children| == |fields|
  {
    Shape(rows, 0, 0, seq(|fields|, k requires 0 <= k < |fields| => ColumnShapeAt(fields, rows, nodes, buffers, k)))
  }

  ghost function ColumnShapeAt(fields: seq<Field>, rows: nat, nodes: seq<Node>, buffers: seq<Buffer>, k: nat): Shape
    requires k < |fields| && ColumnStands(fields, rows, nodes, buffers, k)
  {
    var root := Field(false, StructOf(fields));
    ShapeAt(fields[k], nodes, buffers, NodeCountTo(root, k), BufferCountTo(root, k), Some(rows), 0)
  }

  lemma ColumnAsShape(fields: seq<Field>, rows: nat, nodes: seq<Node>, buffers: seq<Buffer>, s: Shape, k: nat)
    requires k < |fields| == |s.children| && ColumnStands(fields, rows, nodes, buffers, k)
    requires s.children[k] == ColumnShapeAt(fields, rows, nodes, buffers, k)
    ensures Fits(fields[k], s.children[k], Some(rows), 0)
    ensures ChildAt(Field(false, StructOf(fields)), nodes, buffers, 0, 0, s, k)
  {
    var root := Field(false, StructOf(fields));
    StandsAsShape(fields[k], nodes, buffers, NodeCountTo(root, k), BufferCountTo(root, k), Some(rows), 0);
  }

  lemma RootFits(fields: seq<Field>, rows: nat, s: Shape)
    requires s.length == rows && s.nulls == 0 && s.bytes == 0 && |s.children| == |fields|
    requires forall k :: 0 <= k < |fields| ==> Fits(fields[k], s.children[k], Some(rows), 0)
    ensures Fits(Field(false, StructOf(fields)), s, Some(rows), 0)
  {
    assert FitsRow(Field(false, StructOf(fields)), s, Some(rows), 0);
  }

  /** A batch that stands has the descriptors of its shape, and the shape fits. */
  lemma BatchShape(fields: seq<Field>, rows: nat, nodes: seq<Node>, buffers: seq<Buffer>, bodyLen: nat)
    returns (s: Shape)
    requires Stands(fields, rows, nodes, buffers, bodyLen)
    ensures var root := Field(false, StructOf(fields));
      && Fits(root, s, Some(rows), 0) && s.nulls == 0
      && nodes == NodesUpTo(root, s, |fields|) && buffers == Place(0, LengthsUpTo(root, s, |fields|))
      && bodyLen == End(0, LengthsUpTo(root, s, |fields|))
  {
    var root, n := Field(false, StructOf(fields)), |fields|;
    s := BatchShapeAt(fields, rows, nodes, buffers);
    forall k | 0 <= k < n
      ensures Fits(fields[k], s.children[k], Some(rows), 0)
      ensures ChildAt(root, nodes, buffers, 0, 0, s, k)
    {
      ColumnAsShape(fields, rows, nodes, buffers, s, k);
    }
    RootFits(fields, rows, s);
    ChildrenAsShape(root, nodes, buffers, 0, 0, s, n, Some(rows), 0);
    CountsTo(root, s, n, Some(rows), 0);
    TiledIsPlaced(buffers, bodyLen);
    AllOf(nodes, buffers, NodesUpTo(root, s, n), LengthsUpTo(root, s, n));
  }

  lemma AllOf(nodes: seq<Node>, buffers: seq<Buffer>, ns: seq<Node>, ls: seq<nat>)
    requires NodesAt(nodes, 0, ns) && |ns| == |nodes| && LengthsAt(buffers, 0, ls) && |ls| == |buffers|
    ensures nodes == ns && LengthsOf(buffers) == ls
  {
    assert nodes[0..|nodes|] == nodes;
    forall k | 0 <= k < |ls|
      ensures LengthsOf(buffers)[k] == ls[k]
    {
      assert buffers[0 + k].length == ls[k];
    }
  }

  /** The canonical descriptors of a fitting shape stand. */
  lemma ShapeBatch(fields: seq<Field>, rows: nat, s: Shape)
    requires Fits(Field(false, StructOf(fields)), s, Some(rows), 0) && s.nulls == 0
    ensures var root, n := Field(false, StructOf(fields)), |fields|;
      |s.children| == n && Stands(fields, rows, NodesUpTo(root, s, n), Place(0, LengthsUpTo(root, s, n)),
                                  End(0, LengthsUpTo(root, s, n)))
  {
    var root, n := Field(false, StructOf(fields)), |fields|;
    var nodes, ls := NodesUpTo(root, s, n), LengthsUpTo(root, s, n);
    var buffers := Place(0, ls);
    CountsTo(root, s, n, Some(rows), 0);
    PlacedIsTiled(ls);
    PlacedLengths(ls);
    LengthsAtAll(buffers);
    forall k | 0 <= k < n
      ensures ColumnStands(fields, rows, nodes, buffers, k)
    {
      ColumnShapeStands(fields, rows, s, nodes, buffers, k);
    }
  }

  lemma ColumnShapeStands(fields: seq<Field>, rows: nat, s: Shape, nodes: seq<Node>, buffers: seq<Buffer>, k: nat)
    requires Fits(Field(false, StructOf(fields)), s, Some(rows), 0) && s.nulls == 0 && k < |fields|
    requires |s.children| == |fields| && nodes == NodesUpTo(Field(false, StructOf(fields)), s, |fields|)
    requires LengthsAt(buffers, 0, LengthsUpTo(Field(false, StructOf(fields)), s, |fields|))
    ensures ColumnStands(fields, rows, nodes, buffers, k)
  {
    var root, n := Field(false, StructOf(fields)), |fields|;
    ChildNodes(root, s, k, n, Some(rows), 0);
    ChildLengths(root, s, k, n, Some(rows), 0);
    ChildFits(root, s, k, Some(rows), 0);
    PieceAt(buffers, 0, LengthsUpTo(root, s, n), BufferCountTo(root, k), BufferCountTo(root, k + 1));
    ShapeStands(fields[k], s.children[k], Some(rows), 0, nodes, buffers, NodeCountTo(root, k), BufferCountTo(root, k));
  }
}
