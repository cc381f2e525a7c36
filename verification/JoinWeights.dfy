/** The weight every output fragment of an equality join has, for given input relations, and how
    one change of one exact row moves it. */
module JoinWeights {
  import opened Bags
  import opened Options
  import opened Expressions
  import opened Relational

  /** The pair of `x` from `port` and `y` from the other port. */
  function PairOf(port: nat, x: Row, y: Row): Fragment
  {
    if port == 0 then Both(x, y) else Both(y, x)
  }

  /** A row of `port` on its own. */
  function AloneOf(port: nat, x: Row): Fragment
  {
    if port == 0 then JustLeft(x) else JustRight(x)
  }

  ghost predicate Meets(on: Condition, port: nat, x: Row, y: Row)
  {
    if port == 0 then on(x, y) else on(y, x)
  }

  /** Some row of `others`, the relation opposite to `port`, meets `x`. */
  ghost predicate MeetsSome(on: Condition, port: nat, x: Row, others: Bag)
  {
    exists y :: y in others && Meets(on, port, x, y)
  }

  /** Whether a row of `port` on its own is part of the output, given whether it is matched. */
  predicate ShowsAlone(kind: EquiJoinKind, port: nat, matched: bool)
  {
    if kind.LeftSemiJoin? then port == 0 && matched
    else if kind.LeftAntiJoin? then port == 0 && !matched
    else kind.Preserves(port) && !matched
  }

  /** The multiplicity of an output fragment. */
  ghost function Weight(kind: EquiJoinKind, on: Condition, left: Bag, right: Bag, f: Fragment): nat
  {
    match f
    case Both(l, r) => if !kind.LeftOnly() && on(l, r) then left[l] * right[r] else 0
    case JustLeft(l) => if ShowsAlone(kind, 0, MeetsSome(on, 0, l, right)) then left[l] else 0
    case JustRight(r) => if ShowsAlone(kind, 1, MeetsSome(on, 1, r, left)) then right[r] else 0
  }

  lemma PairWeight(on: Condition, left: Bag, right: Bag, l: Row, r: Row)
    ensures Cross(PairWhen(on, MakeBoth()), left, right)[Both(l, r)] == if on(l, r) then left[l] * right[r] else 0
  {
    var h := PairWhen(on, MakeBoth());
    var inner := Fixed(h, l);
    FlatMapPoint(inner, right, r, Both(l, r));
    forall z | z in left && z != l
      ensures Both(l, r) !in AcrossRight(h, right)(z)
    {
      FlatMapAbsent(Fixed(h, z), right, Both(l, r));
    }
    FlatMapPoint(AcrossRight(h, right), left, l, Both(l, r));
    TimesIsProduct(right[r], if on(l, r) then 1 else 0);
    TimesIsProduct(left[l], FlatMap(inner, right)[Both(l, r)]);
  }

  lemma PairsOnlyBoth(on: Condition, left: Bag, right: Bag, f: Fragment)
    requires !f.Both?
    ensures Cross(PairWhen(on, MakeBoth()), left, right)[f] == 0
  {
    var h := PairWhen(on, MakeBoth());
    forall z | z in left
      ensures f !in AcrossRight(h, right)(z)
    {
      FlatMapAbsent(Fixed(h, z), right, f);
    }
    FlatMapAbsent(AcrossRight(h, right), left, f);
  }

  lemma AloneWeight(p: Row -> bool, g: Row -> Fragment, m: Bag, x: Row)
    requires forall a :: a != x ==> g(a) != g(x)
    ensures FlatMap(When(p, g), m)[g(x)] == if p(x) then m[x] else 0
  {
    var h := When(p, g);
    forall z | z in m && z != x
      ensures g(x) !in h(z)
    {
      assert g(x) != g(z);
    }
    FlatMapPoint(h, m, x, g(x));
    assert h(x)[g(x)] == if p(x) then 1 else 0;
    TimesIsProduct(m[x], h(x)[g(x)]);
  }

  lemma AloneOther(p: Row -> bool, g: Row -> Fragment, m: Bag, f: Fragment)
    requires forall a :: g(a) != f
    ensures FlatMap(When(p, g), m)[f] == 0
  {
    FlatMapAbsent(When(p, g), m, f);
  }

  lemma MeetsLeft(on: Condition, l: Row, right: Bag)
    ensures MeetsSome(on, 0, l, right) == HasMatch(on, l, right)
  {
  }

  lemma MeetsRight(on: Condition, r: Row, left: Bag)
    ensures MeetsSome(on, 1, r, left) == HasMatch(Turned(on), r, left)
  {
    if MeetsSome(on, 1, r, left) {
      var y :| y in left && Meets(on, 1, r, y);
      assert Turned(on)(r, y);
    }
  }

  lemma WeightLeft(kind: EquiJoinKind, on: Condition, left: Bag, right: Bag, l: Row)
    ensures JoinFragments(kind, on, left, right)[JustLeft(l)] == Weight(kind, on, left, right, JustLeft(l))
  {
    MeetsLeft(on, l, right);
    PairsOnlyBoth(on, left, right, JustLeft(l));
    AloneWeight(Unmatched(on, right), MakeLeft(), left, l);
    AloneWeight(Matched(on, right), MakeLeft(), left, l);
    AloneOther(Unmatched(Turned(on), left), MakeRight(), right, JustLeft(l));
  }

  lemma WeightRight(kind: EquiJoinKind, on: Condition, left: Bag, right: Bag, r: Row)
    ensures JoinFragments(kind, on, left, right)[JustRight(r)] == Weight(kind, on, left, right, JustRight(r))
  {
    MeetsRight(on, r, left);
    PairsOnlyBoth(on, left, right, JustRight(r));
    AloneOther(Unmatched(on, right), MakeLeft(), left, JustRight(r));
    AloneOther(Matched(on, right), MakeLeft(), left, JustRight(r));
    AloneWeight(Unmatched(Turned(on), left), MakeRight(), right, r);
  }

  lemma WeightBoth(kind: EquiJoinKind, on: Condition, left: Bag, right: Bag, l: Row, r: Row)
    ensures JoinFragments(kind, on, left, right)[Both(l, r)] == Weight(kind, on, left, right, Both(l, r))
  {
    PairWeight(on, left, right, l, r);
    AloneOther(Unmatched(on, right), MakeLeft(), left, Both(l, r));
    AloneOther(Matched(on, right), MakeLeft(), left, Both(l, r));
    AloneOther(Unmatched(Turned(on), left), MakeRight(), right, Both(l, r));
  }

  /** The pointwise weight is the multiplicity in the operator's bag meaning. */
  lemma WeightIsMultiplicity(kind: EquiJoinKind, on: Condition, left: Bag, right: Bag, f: Fragment)
    ensures JoinFragments(kind, on, left, right)[f] == Weight(kind, on, left, right, f)
  {
    match f
    case Both(l, r) => WeightBoth(kind, on, left, right, l, r);
    case JustLeft(l) => WeightLeft(kind, on, left, right, l);
    case JustRight(r) => WeightRight(kind, on, left, right, r);
  }

  // ---- One change of one exact row ----------------------------------------

  /** The weight of a fragment when `own` is the relation of `port` and `others` the opposite one. */
  ghost function WeightAt(kind: EquiJoinKind, on: Condition, port: nat, own: Bag, others: Bag, f: Fragment): nat
  {
    if port == 0 then Weight(kind, on, own, others, f) else Weight(kind, on, others, own, f)
  }

  lemma PairAt(kind: EquiJoinKind, on: Condition, port: nat, own: Bag, others: Bag, x: Row, y: Row)
    requires port <= 1
    ensures WeightAt(kind, on, port, own, others, PairOf(port, x, y))
        == if !kind.LeftOnly() && Meets(on, port, x, y) then own[x] * others[y] else 0
  {
  }

  lemma AloneAt(kind: EquiJoinKind, on: Condition, port: nat, own: Bag, others: Bag, x: Row)
    requires port <= 1
    ensures WeightAt(kind, on, port, own, others, AloneOf(port, x))
        == if ShowsAlone(kind, port, MeetsSome(on, port, x, others)) then own[x] else 0
    ensures WeightAt(kind, on, port, own, others, AloneOf(1 - port, x))
        == if ShowsAlone(kind, 1 - port, MeetsSome(on, 1 - port, x, own)) then others[x] else 0
  {
  }

  /** How a pair with the changed row moves: by the difference times the opposite multiplicity. */
  lemma PairMoves(kind: EquiJoinKind, on: Condition, port: nat, own: Bag, others: Bag, x: Row, after: nat, y: Row)
    requires port <= 1
    ensures WeightAt(kind, on, port, own[x := after], others, PairOf(port, x, y))
        - WeightAt(kind, on, port, own, others, PairOf(port, x, y))
         == if !kind.LeftOnly() && Meets(on, port, x, y) then (after - own[x]) * others[y] else 0
  {
    PairAt(kind, on, port, own, others, x, y);
    PairAt(kind, on, port, own[x := after], others, x, y);
  }

  /** How the changed row on its own moves. */
  lemma AloneMoves(kind: EquiJoinKind, on: Condition, port: nat, own: Bag, others: Bag, x: Row, after: nat)
    requires port <= 1
    ensures WeightAt(kind, on, port, own[x := after], others, AloneOf(port, x))
        - WeightAt(kind, on, port, own, others, AloneOf(port, x))
         == if ShowsAlone(kind, port, MeetsSome(on, port, x, others)) then after - own[x] else 0
  {
    AloneAt(kind, on, port, own, others, x);
    AloneAt(kind, on, port, own[x := after], others, x);
  }

  /** How an opposite row on its own moves: only when its matched status changes. */
  lemma OppositeMoves(kind: EquiJoinKind, on: Condition, port: nat, own: Bag, others: Bag, x: Row, after: nat, y: Row)
    requires port <= 1
    ensures var before, now := MeetsSome(on, 1 - port, y, own), MeetsSome(on, 1 - port, y, own[x := after]);
      var shown: int := others[y];
      WeightAt(kind, on, port, own[x := after], others, AloneOf(1 - port, y))
        - WeightAt(kind, on, port, own, others, AloneOf(1 - port, y))
      == if ShowsAlone(kind, 1 - port, before) == ShowsAlone(kind, 1 - port, now) then 0
         else if ShowsAlone(kind, 1 - port, now) then shown else -shown
  {
    AloneAt(kind, on, port, own, others, y);
    AloneAt(kind, on, port, own[x := after], others, y);
  }

  lemma MeetsTurned(on: Condition, port: nat, x: Row, y: Row)
    requires port <= 1
    ensures Meets(on, 1 - port, y, x) == Meets(on, port, x, y)
  {
  }

  /** A row that does not meet the changed row keeps its matched status. */
  lemma StatusKept(on: Condition, port: nat, own: Bag, x: Row, after: nat, y: Row)
    requires port <= 1 && !Meets(on, port, x, y)
    ensures MeetsSome(on, 1 - port, y, own[x := after]) == MeetsSome(on, 1 - port, y, own)
  {
    MeetsTurned(on, port, x, y);
    if MeetsSome(on, 1 - port, y, own) {
      var z :| z in own && Meets(on, 1 - port, y, z);
      assert z in own[x := after];
    }
    if MeetsSome(on, 1 - port, y, own[x := after]) {
      var z :| z in own[x := after] && Meets(on, 1 - port, y, z);
      assert z in own;
    }
  }

  /** The fragments one change can move: the changed row on its own, and for each opposite row
      in `ys`, the pair and the opposite row on its own. */
  ghost predicate Moves(port: nat, x: Row, ys: set<Row>, f: Fragment)
    requires port <= 1
  {
    exists y :: y in ys && (f == PairOf(port, x, y) || f == AloneOf(1 - port, y))
  }

  /** Everything else keeps its weight. */
  lemma OthersStay(kind: EquiJoinKind, on: Condition, port: nat, own: Bag, others: Bag, x: Row, after: nat,
                   ys: set<Row>, f: Fragment)
    requires port <= 1 && !Moves(port, x, ys, f) && f != AloneOf(port, x)
    requires forall y :: y in others && Meets(on, port, x, y) ==> y in ys
    ensures WeightAt(kind, on, port, own[x := after], others, f) == WeightAt(kind, on, port, own, others, f)
  {
    match f
    case Both(l, r) =>
      var a, b := if port == 0 then l else r, if port == 0 then r else l;
      assert f == PairOf(port, a, b);
      PairAt(kind, on, port, own, others, a, b);
      PairAt(kind, on, port, own[x := after], others, a, b);
      if a == x {
        assert b !in ys;
        assert others[b] == 0 || !Meets(on, port, x, b);
        if others[b] == 0 {
          assert after * others[b] == 0 && own[x] * others[b] == 0;
        }
      }
    case JustLeft(l) => AloneStays(kind, on, port, own, others, x, after, ys, 0, l);
    case JustRight(r) => AloneStays(kind, on, port, own, others, x, after, ys, 1, r);
  }

  lemma AloneStays(kind: EquiJoinKind, on: Condition, port: nat, own: Bag, others: Bag, x: Row, after: nat,
                   ys: set<Row>, side: nat, z: Row)
    requires port <= 1 && side <= 1 && !Moves(port, x, ys, AloneOf(side, z)) && AloneOf(side, z) != AloneOf(port, x)
    requires forall y :: y in others && Meets(on, port, x, y) ==> y in ys
    ensures WeightAt(kind, on, port, own[x := after], others, AloneOf(side, z))
        == WeightAt(kind, on, port, own, others, AloneOf(side, z))
  {
    AloneAt(kind, on, port, own, others, z);
    AloneAt(kind, on, port, own[x := after], others, z);
    if side != port {
      assert z !in ys;
      if Meets(on, port, x, z) {
        assert others[z] == 0;
      } else {
        StatusKept(on, port, own, x, after, z);
      }
    }
  }
}
