/** The validator of received batch descriptors: a cursor over nodes and buffers with a running
    eight-aligned offset, advanced through the schema in pre-order. */
module LayoutValidation {
  import opened Options
  import opened Sequences
  import opened Layouts
  import opened LayoutPositions

  /** The shapes of the children of a schema: the schema as one struct of `rows` rows. */
  function Root(fields: seq<Field>): Field
  {
    Field(false, StructOf(fields))
  }

  /** The descriptors are the canonical ones of `s`. */
  ghost predicate Canonical(fields: seq<Field>, rows: nat, s: Shape, nodes: seq<Node>, buffers: seq<Buffer>,
                            bodyLen: nat)
  {
    && Fits(Root(fields), s, Some(rows), 0) && s.nulls == 0
    && nodes == NodesUpTo(Root(fields), s, |fields|)
    && buffers == Place(0, LengthsUpTo(Root(fields), s, |fields|))
    && bodyLen == End(0, LengthsUpTo(Root(fields), s, |fields|))
  }

  class LayoutCursor {
    const nodes: seq<Node>
    const buffers: seq<Buffer>
    const bodyLen: nat
    var nodesRead: nat
    var buffersRead: nat
    var nextOffset: nat

    ghost predicate Valid()
      reads this
    {
      nodesRead <= |nodes| && buffersRead <= |buffers| && bodyLen <= MAX_ISIZE
    }

    ghost function RestNodes(): seq<Node>
      reads this
      requires Valid()
    {
      nodes[nodesRead..]
    }

    ghost function RestBuffers(): seq<Buffer>
      reads this
      requires Valid()
    {
      buffers[buffersRead..]
    }

    constructor (nodes: seq<Node>, buffers: seq<Buffer>, bodyLen: nat)
      requires bodyLen <= MAX_ISIZE
      ensures Valid() && RestNodes() == nodes && RestBuffers() == buffers && nextOffset == 0 && this.bodyLen == bodyLen
    {
      this.nodes, this.buffers, this.bodyLen := nodes, buffers, bodyLen;
      nodesRead, buffersRead, nextOffset := 0, 0, 0;
    }

    /** Takes one node. */
    method NextNode() returns (node: Option<Node>)
      requires Valid()
      modifies this
      ensures Valid() && RestBuffers() == old(RestBuffers()) && nextOffset == old(nextOffset)
      ensures node.Some? ==> old(RestNodes()) == [node.value] + RestNodes()
      ensures node.None? ==> old(RestNodes()) == []
    {
      if nodesRead == |nodes| {
        return None;
      }
      node := Some(nodes[nodesRead]);
      nodesRead := nodesRead + 1;
    }

    /** Takes one buffer, which must start exactly where the previous one ended, aligned. */
    method NextBuffer(expected: Option<nat>) returns (ok: bool, ghost length: nat)
      requires Valid()
      modifies this
      ensures Valid() && RestNodes() == old(RestNodes())
      ensures ok ==>
        (expected.Some? ==>
             length == expected.value) && old(RestBuffers()) == [Buffer(old(nextOffset), length)] + RestBuffers()
      ensures ok ==> nextOffset == Align8(old(nextOffset) + length)
      ensures !ok ==> Refuses(old(RestBuffers()), old(nextOffset), expected, bodyLen)
    {
      length := 0;
      if buffersRead == |buffers| {
        return false, length;
      }
      var buffer := buffers[buffersRead];
      if buffer.offset < 0 || buffer.length < 0 || buffer.offset != nextOffset
         || buffer.offset + buffer.length > bodyLen
         || (expected.Some? && buffer.length != expected.value) {
        return false, length;
      }
      length := buffer.length;
      assert buffer.offset + buffer.length + 7 <= MAX_USIZE;
      buffersRead := buffersRead + 1;
      nextOffset := Align8(buffer.offset + buffer.length);
      ok := true;
    }

    /** Everything must have been used, and the body covered. */
    predicate Finished()
      reads this
    {
      nodesRead == |nodes| && buffersRead == |buffers| && nextOffset == bodyLen
    }

    /** Takes the buffers a field has of its own. */
    method OwnLayout(f: Field, length: nat) returns (ok: bool, ghost bytes: nat)
      requires Valid() && !f.layout.Unsupported? && nextOffset % 8 == 0
      modifies this
      ensures Valid() && RestNodes() == old(RestNodes())
      ensures ok ==> var own := OwnBuffers(f, Shape(length, 0, bytes, []));
        && (!f.layout.VariableWidth? ==> bytes == 0)
        && old(RestBuffers()) == Place(old(nextOffset), own) + RestBuffers() && nextOffset == End(old(nextOffset), own)
      ensures !ok ==>
        forall own :: Meets(own, Expected(f.layout, length)) && End(old(nextOffset), own) <= bodyLen ==>
            !(Place(old(nextOffset), own) <= old(RestBuffers()))
    {
      var expected := Expected(f.layout, length);
      bytes := 0;
      ghost var taken: seq<nat> := [];
      ghost var all, start := RestBuffers(), nextOffset;
      for k := 0 to |expected|
        invariant Valid() && RestNodes() == old(RestNodes()) && |taken| == k
        invariant Meets(taken, expected[..k])
        invariant all == Place(start, taken) + RestBuffers() && nextOffset == End(start, taken)
      {
        ghost var before := RestBuffers();
        var took;
        ghost var length';
        took, length' := NextBuffer(expected[k]);
        if !took {
          NoneOpens(expected, taken, k, start, all, before, bodyLen);
          return false, bytes;
        }
        TakenMore(start, taken, length', all, before, RestBuffers());
        taken := taken + [length'];
      }
      ok := true;
      bytes := if f.layout.VariableWidth? then taken[2] else 0;
      OwnExpected(f, length, taken, bytes);
    }
  }

  lemma TakenMore(start: nat, taken: seq<nat>, length: nat, all: seq<Buffer>, before: seq<Buffer>, rest: seq<Buffer>)
    requires all == Place(start, taken) + before && before == [Buffer(End(start, taken), length)] + rest
    ensures all == Place(start, taken + [length]) + rest
    ensures End(start, taken + [length]) == Align8(End(start, taken) + length)
  {
    assert (taken + [length])[..|taken|] == taken;
    Assoc(Place(start, taken), [Buffer(End(start, taken), length)], rest);
  }

  /** The next buffer is not one that starts at `offset`, has the expected length and stays in the body. */
  predicate Refuses(rest: seq<Buffer>, offset: nat, expected: Option<nat>, bodyLen: nat)
  {
    rest == [] || rest[0].offset != offset || rest[0].length < 0
    || offset + rest[0].length > bodyLen
    || (expected.Some? && rest[0].length != expected.value)
  }

  lemma NoneOpens(expected: seq<Option<nat>>, taken: seq<nat>, k: nat, start: nat, all: seq<Buffer>,
                  before: seq<Buffer>, bodyLen: nat)
    requires k < |expected| && |taken| == k && all == Place(start, taken) + before
    requires Refuses(before, End(start, taken), expected[k], bodyLen)
    ensures forall own :: Meets(own, expected) && End(start, own) <= bodyLen ==> !(Place(start, own) <= all)
  {
    forall own | Meets(own, expected) && End(start, own) <= bodyLen
      ensures !(Place(start, own) <= all)
    {
      Refused(own, expected, taken, k, start, all, before, bodyLen);
    }
  }

  /** A buffer refused here belongs to no canonical placement within the body. */
  lemma Refused(own: seq<nat>, expected: seq<Option<nat>>, taken: seq<nat>, k: nat, start: nat, all: seq<Buffer>,
                before: seq<Buffer>, bodyLen: nat)
    requires Meets(own, expected) && k < |own| && |taken| == k && End(start, own) <= bodyLen
    requires all == Place(start, taken) + before && Refuses(before, End(start, taken), expected[k], bodyLen)
    ensures !(Place(start, own) <= all)
  {
    if Place(start, own) <= all {
      assert own == own[..k] + own[k..];
      PlaceConcat(start, own[..k], own[k..]);
      assert Place(start, own[..k]) == all[..k] == Place(start, taken);
      PlaceLengths(start, taken, own[..k]);
      PlaceAt(start, own, k);
      assert before[0] == all[k] == Place(start, own)[k];
      assert own[..|own|] == own;
      EndGrows(start, own, k, |own|);
    }
  }

  /** The lengths a field's own buffers must have; a variable-width value buffer may have any. */
  function Expected(layout: Layout, length: nat): seq<Option<nat>>
  {
    match layout
    case Bitmap => [Some(BitmapBytes(length)), Some(BitmapBytes(length))]
    case FixedWidth(width) => [Some(BitmapBytes(length)), Some(length * width)]
    case VariableWidth => [Some(BitmapBytes(length)), Some((length + 1) * 4), None]
    case ListOf(_) => [Some(BitmapBytes(length)), Some((length + 1) * 4)]
    case StructOf(_) => [Some(BitmapBytes(length))]
    case _ => []
  }

  lemma OwnExpected(f: Field, length: nat, taken: seq<nat>, bytes: nat)
    requires Meets(taken, Expected(f.layout, length)) && bytes == if f.layout.VariableWidth? then taken[2] else 0
    ensures taken == OwnBuffers(f, Shape(length, 0, bytes, []))
  {
  }

  predicate Meets(own: seq<nat>, expected: seq<Option<nat>>)
  {
    |own| == |expected| && forall i :: 0 <= i < |own| && expected[i].Some? ==> own[i] == expected[i].value
  }

  /** Placements with equal descriptors have equal lengths. */
  lemma {:induction false} PlaceLengths(start: nat, a: seq<nat>, b: seq<nat>)
    requires Place(start, a) == Place(start, b)
    ensures a == b
  {
    assert |Place(start, a)| == |a| && |Place(start, b)| == |b|;
    forall k | 0 <= k < |a|
      ensures a[k] == b[k]
    {
      PlaceAt(start, a, k);
      PlaceAt(start, b, k);
    }
  }

  // ---- Descriptors against the sequences they open ------------------------

  /** The next descriptors are the canonical ones for nodes `ns` and buffer lengths `ls`, within the body. */
  ghost predicate Opens(ns: seq<Node>, ls: seq<nat>, nodes: seq<Node>, buffers: seq<Buffer>, offset: nat, bodyLen: nat)
  {
    ns <= nodes && Place(offset, ls) <= buffers && End(offset, ls) <= bodyLen
  }

  /** Reading those descriptors leaves the given rest. */
  ghost predicate Leaves(ns: seq<Node>, ls: seq<nat>, nodes: seq<Node>, buffers: seq<Buffer>, offset: nat,
                         restNodes: seq<Node>, restBuffers: seq<Buffer>)
  {
    nodes == ns + restNodes && buffers == Place(offset, ls) + restBuffers
  }

  lemma PlacePrefix(start: nat, a: seq<nat>, b: seq<nat>)
    requires a <= b
    ensures Place(start, a) <= Place(start, b) && End(start, a) <= End(start, b)
  {
    assert b == a + b[|a|..];
    PlaceConcat(start, a, b[|a|..]);
    EndConcat(start, a, b[|a|..]);
  }

  lemma OpensShorter(ns: seq<Node>, ls: seq<nat>, ns': seq<Node>, ls': seq<nat>, nodes: seq<Node>,
                     buffers: seq<Buffer>, offset: nat, bodyLen: nat)
    requires ns <= ns' && ls <= ls' && Opens(ns', ls', nodes, buffers, offset, bodyLen)
    ensures Opens(ns, ls, nodes, buffers, offset, bodyLen)
  {
    PlacePrefix(offset, ls, ls');
    PrefixCut(ns, ns', nodes);
    PrefixCut(Place(offset, ls), Place(offset, ls'), buffers);
  }

  /** What remains after a first part opens the second part. */
  lemma OpensRest(ns: seq<Node>, ls: seq<nat>, ns': seq<Node>, ls': seq<nat>, nodes: seq<Node>, buffers: seq<Buffer>,
                  offset: nat, bodyLen: nat, restNodes: seq<Node>, restBuffers: seq<Buffer>)
    requires Opens(ns + ns', ls + ls', nodes, buffers, offset, bodyLen)
    requires Leaves(ns, ls, nodes, buffers, offset, restNodes, restBuffers)
    ensures Opens(ns', ls', restNodes, restBuffers, End(offset, ls), bodyLen)
  {
    PlaceConcat(offset, ls, ls');
    EndConcat(offset, ls, ls');
    ConcatPrefix(ns, ns', restNodes);
    ConcatPrefix(Place(offset, ls), Place(End(offset, ls), ls'), restBuffers);
  }

  lemma OpensTail(p: seq<Node>, q: seq<nat>, ns: seq<Node>, ls: seq<nat>, ns': seq<Node>, ls': seq<nat>,
                  nodes: seq<Node>, buffers: seq<Buffer>, offset: nat, bodyLen: nat, restNodes: seq<Node>,
                  restBuffers: seq<Buffer>)
    requires p == ns + ns' && q == ls + ls' && Opens(p, q, nodes, buffers, offset, bodyLen)
    requires Leaves(ns, ls, nodes, buffers, offset, restNodes, restBuffers)
    ensures Opens(ns', ls', restNodes, restBuffers, End(offset, ls), bodyLen)
  {
    OpensRest(ns, ls, ns', ls', nodes, buffers, offset, bodyLen, restNodes, restBuffers);
  }

  /** Reading one part after another. */
  lemma LeavesMore(ns: seq<Node>, ls: seq<nat>, ns': seq<Node>, ls': seq<nat>, nodes: seq<Node>, buffers: seq<Buffer>,
                   offset: nat, midNodes: seq<Node>, midBuffers: seq<Buffer>, restNodes: seq<Node>,
                   restBuffers: seq<Buffer>)
    requires Leaves(ns, ls, nodes, buffers, offset, midNodes, midBuffers)
    requires Leaves(ns', ls', midNodes, midBuffers, End(offset, ls), restNodes, restBuffers)
    ensures Leaves(ns + ns', ls + ls', nodes, buffers, offset, restNodes, restBuffers)
    ensures End(offset, ls + ls') == End(End(offset, ls), ls')
  {
    PlaceConcat(offset, ls, ls');
    EndConcat(offset, ls, ls');
    Assoc(ns, ns', restNodes);
    Assoc(Place(offset, ls), Place(End(offset, ls), ls'), restBuffers);
  }

  lemma PlaceCut(start: nat, p: seq<nat>, q: seq<nat>, buffers: seq<Buffer>)
    requires |p| <= |q| && Place(start, p) <= buffers && Place(start, q) <= buffers
    ensures p == q[..|p|]
  {
    PlacePrefix(start, q[..|p|], q);
    PrefixCut(Place(start, q[..|p|]), Place(start, q), buffers);
    PrefixCut(Place(start, p), buffers, buffers);
    PlaceLengths(start, p, q[..|p|]);
  }

  /** Two parts that open the same descriptors extend to common streams. */
  lemma Meeting(ns: seq<Node>, ls: seq<nat>, ns': seq<Node>, ls': seq<nat>, nodes: seq<Node>, buffers: seq<Buffer>,
                start: nat)
    returns (a: seq<Node>, b: seq<Node>, c: seq<nat>, d: seq<nat>)
    requires ns <= nodes && ns' <= nodes && Place(start, ls) <= buffers && Place(start, ls') <= buffers
    ensures ns + a == ns' + b && ls + c == ls' + d
  {
    a, b := nodes[|ns|..], nodes[|ns'|..];
    assert ns + a == nodes && ns' + b == nodes;
    if |ls| <= |ls'| {
      PlaceCut(start, ls, ls', buffers);
      c, d := ls'[|ls|..], [];
    } else {
      PlaceCut(start, ls', ls, buffers);
      c, d := [], ls[|ls'|..];
    }
  }

  // ---- Fields and their children ------------------------------------------

  ghost predicate ChildrenFit(f: Field, s: Shape)
  {
    |s.children| <= |f.Children()| && FirstFit(f, s, |s.children|)
  }

  /** The next descriptors are the canonical ones of `s`, within the body. */
  ghost predicate Admits(f: Field, s: Shape, expected: Option<nat>, masked: nat, nodes: seq<Node>,
                         buffers: seq<Buffer>, offset: nat, bodyLen: nat)
  {
    Fits(f, s, expected, masked) && Opens(Nodes(f, s), Lengths(f, s), nodes, buffers, offset, bodyLen)
  }

  /** The same after the node of `s`. */
  ghost predicate AdmitsBody(f: Field, s: Shape, nodes: seq<Node>, buffers: seq<Buffer>, offset: nat, bodyLen: nat)
  {
    && ChildrenFit(f, s)
    && |s.children| == |f.Children()|
    && Opens(NodesUpTo(f, s, |s.children|), Lengths(f, s), nodes, buffers, offset, bodyLen)
  }

  /** The same for the children of `s` alone. */
  ghost predicate AdmitsChildren(f: Field, s: Shape, nodes: seq<Node>, buffers: seq<Buffer>, offset: nat, bodyLen: nat)
  {
    && ChildrenFit(f, s)
    && |s.children| == |f.Children()|
    && Opens(NodesUpTo(f, s, |s.children|), LengthsUpTo(f, s, |s.children|), nodes, buffers, offset, bodyLen)
  }

  /** What comes before the `k`-th child depends on the children before it alone. */
  lemma {:induction false} UpToSame(f: Field, s: Shape, t: Shape, k: nat)
    requires k <= |s.children| <= |f.Children()| && k <= |t.children| <= |f.Children()|
    requires s.children[..k] == t.children[..k]
    ensures NodesUpTo(f, s, k) == NodesUpTo(f, t, k) && LengthsUpTo(f, s, k) == LengthsUpTo(f, t, k)
  {
    if k > 0 {
      assert s.children[..k - 1] == s.children[..k][..k - 1] && t.children[..k - 1] == t.children[..k][..k - 1];
      UpToSame(f, s, t, k - 1);
      assert s.children[k - 1] == s.children[..k][k - 1] == t.children[..k][k - 1] == t.children[k - 1];
    }
  }

  lemma {:induction false} UpToPrefix(f: Field, s: Shape, k: nat, n: nat)
    requires k <= n <= |s.children| <= |f.Children()|
    ensures NodesUpTo(f, s, k) <= NodesUpTo(f, s, n) && LengthsUpTo(f, s, k) <= LengthsUpTo(f, s, n)
    decreases n
  {
    if k < n {
      UpToPrefix(f, s, k, n - 1);
    }
  }

  lemma FitsChild(f: Field, t: Shape, k: nat)
    requires ChildrenFit(f, t) && k < |t.children|
    ensures Fits(f.Children()[k], t.children[k], ChildRows(f, t), Masking(f, t))
    ensures |t.children[k].children| == |f.Children()[k].Children()|
  {
  }

  lemma UpToNext(f: Field, t: Shape, k: nat)
    requires k < |t.children| <= |f.Children()| && |t.children[k].children| <= |f.Children()[k].Children()|
    ensures NodesUpTo(f, t, k + 1) == NodesUpTo(f, t, k) + Nodes(f.Children()[k], t.children[k])
    ensures LengthsUpTo(f, t, k + 1) == LengthsUpTo(f, t, k) + Lengths(f.Children()[k], t.children[k])
  {
  }

  lemma AdmittedPrefix(f: Field, t: Shape, k: nat, nodes: seq<Node>, buffers: seq<Buffer>, offset: nat, bodyLen: nat)
    requires k <= |t.children| <= |f.Children()|
    requires Opens(NodesUpTo(f, t, |t.children|), LengthsUpTo(f, t, |t.children|), nodes, buffers, offset, bodyLen)
    ensures Opens(NodesUpTo(f, t, k), LengthsUpTo(f, t, k), nodes, buffers, offset, bodyLen)
  {
    var n := |t.children|;
    UpToPrefix(f, t, k, n);
    OpensShorter(NodesUpTo(f, t, k), LengthsUpTo(f, t, k), NodesUpTo(f, t, n), LengthsUpTo(f, t, n), nodes, buffers,
                 offset, bodyLen);
  }

  /** Once `k` children have been read, any admitted shape agrees with them. */
  lemma ChildrenAgree(f: Field, s: Shape, t: Shape, k: nat, nodes: seq<Node>, buffers: seq<Buffer>, offset: nat,
                      bodyLen: nat)
    requires |s.children| == k && ChildrenFit(f, s) && s.length == t.length && s.nulls == t.nulls && k <= |t.children|
    requires NodesUpTo(f, s, k) <= nodes && Place(offset, LengthsUpTo(f, s, k)) <= buffers
    requires AdmitsChildren(f, t, nodes, buffers, offset, bodyLen)
    ensures s.children == t.children[..k]
  {
    AdmittedPrefix(f, t, k, nodes, buffers, offset, bodyLen);
    var a, b, c, d := Meeting(NodesUpTo(f, s, k), LengthsUpTo(f, s, k), NodesUpTo(f, t, k), LengthsUpTo(f, t, k),
                              nodes, buffers, offset);
    ChildrenDetermined(true, f, s, t, k, a, b, c, d);
    assert s.children[..k] == s.children;
  }

  /** The descriptors of the `k`-th child come after those of the children before it. */
  lemma ChildOpens(f: Field, t: Shape, k: nat, g: Field, u: Shape, nodes: seq<Node>, buffers: seq<Buffer>, offset: nat,
                   bodyLen: nat, restNodes: seq<Node>, restBuffers: seq<Buffer>)
    requires k < |t.children| <= |f.Children()| && g == f.Children()[k] && u == t.children[k]
    requires |u.children| <= |g.Children()|
    requires Opens(NodesUpTo(f, t, k + 1), LengthsUpTo(f, t, k + 1), nodes, buffers, offset, bodyLen)
    requires Leaves(NodesUpTo(f, t, k), LengthsUpTo(f, t, k), nodes, buffers, offset, restNodes, restBuffers)
    ensures Opens(Nodes(g, u), Lengths(g, u), restNodes, restBuffers, End(offset, LengthsUpTo(f, t, k)), bodyLen)
  {
    UpToNext(f, t, k);
    OpensTail(NodesUpTo(f, t, k + 1), LengthsUpTo(f, t, k + 1), NodesUpTo(f, t, k), LengthsUpTo(f, t, k), Nodes(g, u),
              Lengths(g, u), nodes, buffers, offset, bodyLen, restNodes, restBuffers);
  }

  /** If the next child admits nothing, neither do the children as a whole. */
  lemma ChildRefused(f: Field, s: Shape, t: Shape, k: nat, nodes: seq<Node>, buffers: seq<Buffer>, offset: nat,
                     bodyLen: nat, restNodes: seq<Node>, restBuffers: seq<Buffer>)
    requires |s.children| == k < |f.Children()| && ChildrenFit(f, s) && s.length == t.length && s.nulls == t.nulls
    requires Leaves(NodesUpTo(f, s, k), LengthsUpTo(f, s, k), nodes, buffers, offset, restNodes, restBuffers)
    requires forall u :: !Admits(f.Children()[k], u, ChildRows(f, s), Masking(f, s), restNodes, restBuffers,
                                 End(offset, LengthsUpTo(f, s, k)), bodyLen)
    ensures !AdmitsChildren(f, t, nodes, buffers, offset, bodyLen)
  {
    if AdmitsChildren(f, t, nodes, buffers, offset, bodyLen) {
      ChildrenAgree(f, s, t, k, nodes, buffers, offset, bodyLen);
      NextAdmits(f, s, t, k, nodes, buffers, offset, bodyLen, restNodes, restBuffers);
    }
  }

  lemma NextAdmits(f: Field, s: Shape, t: Shape, k: nat, nodes: seq<Node>, buffers: seq<Buffer>, offset: nat,
                   bodyLen: nat, restNodes: seq<Node>, restBuffers: seq<Buffer>)
    requires |s.children| == k < |f.Children()| == |t.children| && s.length == t.length && s.nulls == t.nulls
    requires s.children == t.children[..k] && ChildrenFit(f, t)
    requires Leaves(NodesUpTo(f, s, k), LengthsUpTo(f, s, k), nodes, buffers, offset, restNodes, restBuffers)
    requires Opens(NodesUpTo(f, t, |t.children|), LengthsUpTo(f, t, |t.children|), nodes, buffers, offset, bodyLen)
    ensures Admits(f.Children()[k], t.children[k], ChildRows(f, s), Masking(f, s), restNodes, restBuffers,
                   End(offset, LengthsUpTo(f, s, k)), bodyLen)
  {
    assert s.children[..k] == t.children[..k];
    UpToSame(f, s, t, k);
    FitsChild(f, t, k);
    AdmittedPrefix(f, t, k + 1, nodes, buffers, offset, bodyLen);
    ChildOpens(f, t, k, f.Children()[k], t.children[k], nodes, buffers, offset, bodyLen, restNodes, restBuffers);
  }

  function More(s: Shape, u: Shape): Shape
  {
    s.(children := s.children + [u])
  }

  /** One more child has been read. */
  lemma ChildTaken(f: Field, s: Shape, u: Shape, k: nat)
    requires ChildrenFit(f, s) && |s.children| == k < |f.Children()|
    requires Fits(f.Children()[k], u, ChildRows(f, s), Masking(f, s))
    ensures ChildrenFit(f, More(s, u)) && |u.children| == |f.Children()[k].Children()|
    ensures NodesUpTo(f, More(s, u), k + 1) == NodesUpTo(f, s, k) + Nodes(f.Children()[k], u)
    ensures LengthsUpTo(f, More(s, u), k + 1) == LengthsUpTo(f, s, k) + Lengths(f.Children()[k], u)
  {
    MoreUpTo(f, s, u, k);
  }

  lemma MoreUpTo(f: Field, s: Shape, u: Shape, k: nat)
    requires |s.children| == k < |f.Children()| && |u.children| <= |f.Children()[k].Children()|
    ensures NodesUpTo(f, More(s, u), k + 1) == NodesUpTo(f, s, k) + Nodes(f.Children()[k], u)
    ensures LengthsUpTo(f, More(s, u), k + 1) == LengthsUpTo(f, s, k) + Lengths(f.Children()[k], u)
  {
    assert More(s, u).children[..k] == s.children[..k];
    UpToSame(f, s, More(s, u), k);
  }

  lemma OwnMeets(f: Field, s: Shape)
    ensures Meets(OwnBuffers(f, s), Expected(f.layout, s.length))
    ensures OwnBuffers(f, s) == OwnBuffers(f, Shape(s.length, 0, s.bytes, []))
  {
  }

  /** The own buffers of an admitted field come first. */
  lemma OwnAdmitted(f: Field, t: Shape, nodes: seq<Node>, buffers: seq<Buffer>, offset: nat, bodyLen: nat)
    requires AdmitsBody(f, t, nodes, buffers, offset, bodyLen)
    ensures Meets(OwnBuffers(f, t), Expected(f.layout, t.length))
    ensures Opens([], OwnBuffers(f, t), nodes, buffers, offset, bodyLen)
  {
    OpensShorter([], OwnBuffers(f, t), NodesUpTo(f, t, |t.children|), Lengths(f, t), nodes, buffers, offset, bodyLen);
  }

  /** What follows a field's own buffers are the descriptors of its children. */
  lemma ChildrenAdmitted(f: Field, t: Shape, nodes: seq<Node>, buffers: seq<Buffer>, offset: nat, bodyLen: nat,
                         own: seq<nat>, restBuffers: seq<Buffer>)
    requires AdmitsBody(f, t, nodes, buffers, offset, bodyLen)
    requires buffers == Place(offset, own) + restBuffers && Meets(own, Expected(f.layout, t.length))
    ensures AdmitsChildren(f, t, nodes, restBuffers, End(offset, own), bodyLen)
  {
    OwnAdmitted(f, t, nodes, buffers, offset, bodyLen);
    PlaceCut(offset, own, OwnBuffers(f, t), buffers);
    assert OwnBuffers(f, t)[..|own|] == OwnBuffers(f, t);
    var ns := NodesUpTo(f, t, |t.children|);
    assert [] + ns == ns && [] + nodes == nodes;
    OpensRest([], own, ns, LengthsUpTo(f, t, |t.children|), nodes, buffers, offset, bodyLen, nodes, restBuffers);
  }

  // ---- The recursive walk -------------------------------------------------

  /** The checks on one node. */
  method NodeFits(f: Field, node: Node, expected: Option<nat>, masked: nat) returns (ok: bool)
    ensures ok <==> NodeOk(f, node.length, node.nulls, expected, masked)
  {
    if node.length < 0 || node.nulls < 0 || node.nulls > node.length || f.layout.Unsupported? {
      return false;
    }
    if !f.layout.NullLayout? && !f.nullable && node.nulls > masked {
      return false;
    }
    if expected.Some? && node.length != expected.value {
      return false;
    }
    ok := f.layout.NullLayout? ==> node.nulls == node.length;
  }

  /** An admitted shape starts with its own node. */
  lemma NodeAdmitted(f: Field, t: Shape, expected: Option<nat>, masked: nat, nodes: seq<Node>, buffers: seq<Buffer>,
                     offset: nat, bodyLen: nat)
    requires Admits(f, t, expected, masked, nodes, buffers, offset, bodyLen)
    ensures nodes != [] && nodes[0] == Node(t.length, t.nulls) && NodeOk(f, t.length, t.nulls, expected, masked)
    ensures AdmitsBody(f, t, nodes[1..], buffers, offset, bodyLen)
  {
    assert Nodes(f, t)[0] == Node(t.length, t.nulls);
    assert nodes == [nodes[0]] + nodes[1..];
    ConcatPrefix([nodes[0]], NodesUpTo(f, t, |t.children|), nodes[1..]);
  }

  /** Takes the node and the buffers of a field and of everything below it. */
  method ConsumeField(cursor: LayoutCursor, f: Field, expected: Option<nat>, masked: nat)
    returns (ok: bool, ghost s: Shape)
    requires cursor.Valid() && cursor.nextOffset % 8 == 0
    modifies cursor
    ensures cursor.Valid()
    ensures ok ==> Fits(f, s, expected, masked)
    ensures ok ==>
      Leaves(Nodes(f, s), Lengths(f, s), old(cursor.RestNodes()), old(cursor.RestBuffers()), old(cursor.nextOffset),
             cursor.RestNodes(), cursor.RestBuffers())
    ensures ok ==> cursor.nextOffset == End(old(cursor.nextOffset), Lengths(f, s))
    ensures !ok ==>
      forall t :: !Admits(f, t, expected, masked, old(cursor.RestNodes()), old(cursor.RestBuffers()),
                          old(cursor.nextOffset), cursor.bodyLen)
    decreases f, 2
  {
    ghost var nodes, buffers, offset := cursor.RestNodes(), cursor.RestBuffers(), cursor.nextOffset;
    s := Shape(0, 0, 0, []);
    forall t | Admits(f, t, expected, masked, nodes, buffers, offset, cursor.bodyLen)
      ensures nodes != [] && nodes[0] == Node(t.length, t.nulls) && NodeOk(f, t.length, t.nulls, expected, masked)
      ensures AdmitsBody(f, t, nodes[1..], buffers, offset, cursor.bodyLen)
    {
      NodeAdmitted(f, t, expected, masked, nodes, buffers, offset, cursor.bodyLen);
    }
    var next := cursor.NextNode();
    if next.None? {
      return false, s;
    }
    var node := next.value;
    assert nodes[1..] == cursor.RestNodes();
    var fits := NodeFits(f, node, expected, masked);
    if !fits {
      return false, s;
    }
    if f.layout.NullLayout? {
      s := Shape(node.length, node.nulls, 0, []);
      NullTaken(f, s, offset, buffers);
      return true, s;
    }
    ok, s := ConsumeBody(cursor, f, node.length, node.nulls);
    if ok {
      Assoc([node], NodesUpTo(f, s, |s.children|), cursor.RestNodes());
    }
  }

  lemma NullTaken(f: Field, s: Shape, offset: nat, buffers: seq<Buffer>)
    requires f.layout.NullLayout? && s.children == []
    ensures Nodes(f, s) == [Node(s.length, s.nulls)] && Lengths(f, s) == [] && Place(offset, []) + buffers == buffers
    ensures End(offset, []) == offset
  {
    assert NodesUpTo(f, s, 0) == [] && LengthsUpTo(f, s, 0) == [];
  }

  /** Takes the buffers of a field, then everything below it. */
  method ConsumeBody(cursor: LayoutCursor, f: Field, length: nat, nulls: nat) returns (ok: bool, ghost s: Shape)
    requires cursor.Valid() && cursor.nextOffset % 8 == 0 && !f.layout.Unsupported?
    modifies cursor
    ensures cursor.Valid()
    ensures ok ==>
      && s.length == length
      && s.nulls == nulls
      && (!f.layout.VariableWidth? ==> s.bytes == 0)
      && |s.children| == |f.Children()|
      && ChildrenFit(f, s)
    ensures ok ==>
      Leaves(NodesUpTo(f, s, |s.children|), Lengths(f, s), old(cursor.RestNodes()), old(cursor.RestBuffers()),
             old(cursor.nextOffset), cursor.RestNodes(), cursor.RestBuffers())
    ensures ok ==> cursor.nextOffset == End(old(cursor.nextOffset), Lengths(f, s))
    ensures !ok ==>
      forall t: Shape :: t.length == length && t.nulls == nulls ==>
          !AdmitsBody(f, t, old(cursor.RestNodes()), old(cursor.RestBuffers()), old(cursor.nextOffset), cursor.bodyLen)
    decreases f, 1
  {
    ghost var nodes, buffers, offset := cursor.RestNodes(), cursor.RestBuffers(), cursor.nextOffset;
    var took;
    ghost var bytes;
    took, bytes := cursor.OwnLayout(f, length);
    ghost var head := Shape(length, nulls, bytes, []);
    if !took {
      forall t: Shape | t.length == length
        ensures !AdmitsBody(f, t, nodes, buffers, offset, cursor.bodyLen)
      {
        if AdmitsBody(f, t, nodes, buffers, offset, cursor.bodyLen) {
          OwnAdmitted(f, t, nodes, buffers, offset, cursor.bodyLen);
        }
      }
      return false, head;
    }
    ghost var own, midBuffers := OwnBuffers(f, head), cursor.RestBuffers();
    OwnMeets(f, head);
    assert [] + nodes == nodes;
    ok, s := ConsumeChildren(cursor, f, length, nulls, head);
    if ok {
      BodyTaken(f, s, own, nodes, buffers, offset, midBuffers, cursor.RestNodes(), cursor.RestBuffers());
    } else {
      forall t: Shape | t.length == length && t.nulls == nulls
        ensures !AdmitsBody(f, t, nodes, buffers, offset, cursor.bodyLen)
      {
        if AdmitsBody(f, t, nodes, buffers, offset, cursor.bodyLen) {
          ChildrenAdmitted(f, t, nodes, buffers, offset, cursor.bodyLen, own, midBuffers);
        }
      }
    }
  }

  lemma BodyTaken(f: Field, s: Shape, own: seq<nat>, nodes: seq<Node>, buffers: seq<Buffer>, offset: nat,
                  midBuffers: seq<Buffer>, restNodes: seq<Node>, restBuffers: seq<Buffer>)
    requires |s.children| == |f.Children()| && own == OwnBuffers(f, s) && buffers == Place(offset, own) + midBuffers
    requires Leaves(NodesUpTo(f, s, |s.children|), LengthsUpTo(f, s, |s.children|), nodes, midBuffers,
                    End(offset, own), restNodes, restBuffers)
    ensures Leaves(NodesUpTo(f, s, |s.children|), Lengths(f, s), nodes, buffers, offset, restNodes, restBuffers)
    ensures End(offset, Lengths(f, s)) == End(End(offset, own), LengthsUpTo(f, s, |s.children|))
  {
    var ns := NodesUpTo(f, s, |s.children|);
    assert [] + nodes == nodes && [] + ns == ns;
    LeavesMore([], own, ns, LengthsUpTo(f, s, |s.children|), nodes, buffers, offset, nodes, midBuffers, restNodes,
               restBuffers);
  }

  /** Takes everything below a field: the single child of a list, or the fields of a struct. */
  method ConsumeChildren(cursor: LayoutCursor, f: Field, length: nat, nulls: nat, ghost head: Shape)
    returns (ok: bool, ghost s: Shape)
    requires cursor.Valid() && cursor.nextOffset % 8 == 0 && head.children == [] && head.length == length
    requires head.nulls == nulls
    modifies cursor
    ensures cursor.Valid()
    ensures ok ==> s == head.(children := s.children) && |s.children| == |f.Children()| && ChildrenFit(f, s)
    ensures ok ==>
      Leaves(NodesUpTo(f, s, |s.children|), LengthsUpTo(f, s, |s.children|), old(cursor.RestNodes()),
             old(cursor.RestBuffers()), old(cursor.nextOffset), cursor.RestNodes(), cursor.RestBuffers())
    ensures ok ==> cursor.nextOffset == End(old(cursor.nextOffset), LengthsUpTo(f, s, |s.children|))
    ensures !ok ==>
      forall t: Shape :: t.length == length && t.nulls == nulls ==>
          !AdmitsChildren(f, t, old(cursor.RestNodes()), old(cursor.RestBuffers()), old(cursor.nextOffset),
                          cursor.bodyLen)
    decreases f, 0, 1
  {
    ghost var nodes, buffers, offset := cursor.RestNodes(), cursor.RestBuffers(), cursor.nextOffset;
    s := head;
    assert Leaves(NodesUpTo(f, s, 0), LengthsUpTo(f, s, 0), nodes, buffers, offset, nodes, buffers);
    for k := 0 to |f.Children()|
      invariant cursor.Valid() && |s.children| == k && s == head.(children := s.children) && ChildrenFit(f, s)
      invariant Leaves(NodesUpTo(f, s, k), LengthsUpTo(f, s, k), nodes, buffers, offset, cursor.RestNodes(),
                       cursor.RestBuffers())
      invariant cursor.nextOffset == End(offset, LengthsUpTo(f, s, k))
    {
      ok, s := ConsumeNext(cursor, f, k, length, nulls, s, nodes, buffers, offset);
      if !ok {
        return false, s;
      }
    }
    ok := true;
  }

  /** Takes the `k`-th child, after the ones before it. */
  method ConsumeNext(cursor: LayoutCursor, f: Field, k: nat, length: nat, nulls: nat, ghost s: Shape,
                     ghost nodes: seq<Node>, ghost buffers: seq<Buffer>, ghost offset: nat)
    returns (ok: bool, ghost s': Shape)
    requires cursor.Valid() && offset % 8 == 0 && s.length == length && s.nulls == nulls
    requires |s.children| == k < |f.Children()| && ChildrenFit(f, s)
    requires Leaves(NodesUpTo(f, s, k), LengthsUpTo(f, s, k), nodes, buffers, offset, cursor.RestNodes(),
                    cursor.RestBuffers())
    requires cursor.nextOffset == End(offset, LengthsUpTo(f, s, k))
    modifies cursor
    ensures cursor.Valid()
    ensures ok ==> s' == s.(children := s'.children) && |s'.children| == k + 1 && ChildrenFit(f, s')
    ensures ok ==>
      Leaves(NodesUpTo(f, s', k + 1), LengthsUpTo(f, s', k + 1), nodes, buffers, offset, cursor.RestNodes(),
             cursor.RestBuffers())
    ensures ok ==> cursor.nextOffset == End(offset, LengthsUpTo(f, s', k + 1))
    ensures !ok ==>
      forall t: Shape :: t.length == length && t.nulls == nulls ==>
          !AdmitsChildren(f, t, nodes, buffers, offset, cursor.bodyLen)
    decreases f, 0, 0
  {
    ghost var midNodes, midBuffers := cursor.RestNodes(), cursor.RestBuffers();
    ghost var u;
    ok, u := ConsumeField(cursor, f.Children()[k], if f.layout.StructOf? then Some(length) else None,
                          if f.layout.StructOf? then nulls else 0);
    if ok {
      ChildTaken(f, s, u, k);
      LeavesMore(NodesUpTo(f, s, k), LengthsUpTo(f, s, k), Nodes(f.Children()[k], u), Lengths(f.Children()[k], u),
                 nodes, buffers, offset, midNodes, midBuffers, cursor.RestNodes(), cursor.RestBuffers());
    } else {
      forall t: Shape | t.length == length && t.nulls == nulls
        ensures !AdmitsChildren(f, t, nodes, buffers, offset, cursor.bodyLen)
      {
        ChildRefused(f, s, t, k, nodes, buffers, offset, cursor.bodyLen, midNodes, midBuffers);
      }
    }
    s' := More(s, u);
  }

  /** If the descriptors are canonical for some shape, the one that was read uses all of them. */
  lemma CanonicalUsesAll(fields: seq<Field>, rows: nat, s: Shape, t: Shape, nodes: seq<Node>, buffers: seq<Buffer>,
                         bodyLen: nat)
    requires Canonical(fields, rows, t, nodes, buffers, bodyLen)
    requires s.length == rows && s.nulls == 0 && |s.children| == |fields| && ChildrenFit(Root(fields), s)
    requires NodesUpTo(Root(fields), s, |fields|) <= nodes
    requires Place(0, LengthsUpTo(Root(fields), s, |fields|)) <= buffers
    ensures NodesUpTo(Root(fields), s, |fields|) == nodes && Place(0, LengthsUpTo(Root(fields), s, |fields|)) == buffers
    ensures End(0, LengthsUpTo(Root(fields), s, |fields|)) == bodyLen
  {
    var n := |fields|;
    ChildrenAgree(Root(fields), s, t, n, nodes, buffers, 0, bodyLen);
    assert s.children[..n] == s.children == t.children[..n];
    UpToSame(Root(fields), s, t, n);
  }

  /** Descriptors are canonical for some shape exactly when each stands in its place. */
  lemma CanonicalIffStands(fields: seq<Field>, rows: nat, nodes: seq<Node>, buffers: seq<Buffer>, bodyLen: nat)
    ensures (exists s :: Canonical(fields, rows, s, nodes, buffers, bodyLen)) <==>
      Stands(fields, rows, nodes, buffers, bodyLen)
  {
    if exists s :: Canonical(fields, rows, s, nodes, buffers, bodyLen) {
      var s :| Canonical(fields, rows, s, nodes, buffers, bodyLen);
      ShapeBatch(fields, rows, s);
    }
    if Stands(fields, rows, nodes, buffers, bodyLen) {
      var s := BatchShape(fields, rows, nodes, buffers, bodyLen);
      assert Canonical(fields, rows, s, nodes, buffers, bodyLen);
    }
  }

  /** Accepts exactly the canonical descriptors of some shape the schema admits. */
  method ValidateLayout(fields: seq<Field>, rows: nat, nodes: seq<Node>, buffers: seq<Buffer>, bodyLen: nat)
    returns (ok: bool)
    requires bodyLen <= MAX_ISIZE
    ensures ok <==> exists s :: Canonical(fields, rows, s, nodes, buffers, bodyLen)
    ensures ok <==> Stands(fields, rows, nodes, buffers, bodyLen)
  {
    CanonicalIffStands(fields, rows, nodes, buffers, bodyLen);
    var cursor := new LayoutCursor(nodes, buffers, bodyLen);
    var root := Root(fields);
    var taken;
    ghost var s;
    taken, s := ConsumeChildren(cursor, root, rows, 0, Shape(rows, 0, 0, []));
    if taken && cursor.Finished() {
      assert Canonical(fields, rows, s, nodes, buffers, bodyLen);
      return true;
    }
    if exists t :: Canonical(fields, rows, t, nodes, buffers, bodyLen) {
      ghost var t :| Canonical(fields, rows, t, nodes, buffers, bodyLen);
      assert AdmitsChildren(root, t, nodes, buffers, 0, bodyLen);
      if taken {
        CanonicalUsesAll(fields, rows, s, t, nodes, buffers, bodyLen);
      }
    }
    ok := false;
  }

  /** Given the schema, the nodes and the variable-width byte counts, at most one vector of
      buffers and one body length is accepted. */
  lemma DescriptorsUnique(fields: seq<Field>, rows: nat, nodes: seq<Node>, s: Shape, b: seq<Buffer>, m: nat, t: Shape,
                          c: seq<Buffer>, n: nat)
    requires Canonical(fields, rows, s, nodes, b, m) && Canonical(fields, rows, t, nodes, c, n)
    requires VariableUpTo(Root(fields), s, |fields|) == VariableUpTo(Root(fields), t, |fields|)
    ensures s == t && b == c && m == n
  {
    var k := |fields|;
    ChildrenDetermined(false, Root(fields), s, t, k, [], [], [], []);
    assert s.children[..k] == s.children && t.children[..k] == t.children;
  }
}
