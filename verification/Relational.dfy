/** The bag meaning of relational operators: SQL's joined tables (section 7.7 of
    ISO/IEC 9075-2:2003) on one side, and the five kinds of the equality-join operator, by
    output fragments, on the other. */
module Relational {
  import opened Bags
  import opened Options
  import opened Expressions

  type Bag = multiset<Row>

  ghost function When<A, X>(p: A -> bool, g: A -> X): A -> multiset<X>
  {
    a => if p(a) then multiset{g(a)} else multiset{}
  }

  ghost function PairWhen<A, B, X>(p: (A, B) -> bool, g: (A, B) -> X): (A, B) -> multiset<X>
  {
    (a, b) => if p(a, b) then multiset{g(a, b)} else multiset{}
  }

  ghost function Always(): Row -> bool
  {
    r => true
  }

  ghost function Itself(): Row -> Row
  {
    r => r
  }

  ghost function Filter(p: Row -> bool, m: Bag): Bag
  {
    FlatMap(When(p, Itself()), m)
  }

  ghost function Map(f: Row -> Row, m: Bag): Bag
  {
    FlatMap(When(Always(), f), m)
  }

  lemma WhenCong<A, X>(p: A -> bool, g: A -> X, p': A -> bool, g': A -> X, m: multiset<A>)
    requires forall a :: a in m ==> p(a) == p'(a) && (p(a) ==> g(a) == g'(a))
    ensures FlatMap(When(p, g), m) == FlatMap(When(p', g'), m)
  {
    FlatMapCong(When(p, g), When(p', g'), m);
  }

  lemma PairWhenCong<A, B, X>(p: (A, B) -> bool, g: (A, B) -> X, p': (A, B) -> bool, g': (A, B) -> X,
                              left: multiset<A>, right: multiset<B>)
    requires forall a, b :: a in left && b in right ==> p(a, b) == p'(a, b) && (p(a, b) ==> g(a, b) == g'(a, b))
    ensures Cross(PairWhen(p, g), left, right) == Cross(PairWhen(p', g'), left, right)
  {
    CrossCong(PairWhen(p, g), PairWhen(p', g'), left, right);
  }

  /** Post-processing the result of a conditional selection. */
  lemma FlatMapWhen<A, X, Y>(h: X -> multiset<Y>, p: A -> bool, g: A -> X, g': A -> Y, m: multiset<A>)
    requires forall a :: a in m && p(a) ==> h(g(a)) == multiset{g'(a)}
    ensures FlatMap(h, FlatMap(When(p, g), m)) == FlatMap(When(p, g'), m)
  {
    FlatMapStep(h, multiset{});
    FlatMapFuse(h, When(p, g), m);
    forall a | a in m
      ensures After(h, When(p, g))(a) == When(p, g')(a)
    {
      if p(a) {
        FlatMapSingle(h, g(a));
      }
    }
    FlatMapCong(After(h, When(p, g)), When(p, g'), m);
  }

  lemma AfterPairWhen<A, B, X, Y>(h: X -> multiset<Y>, p: (A, B) -> bool, g: (A, B) -> X, g': (A, B) -> Y, a: A, b: B)
    requires p(a, b) ==> h(g(a, b)) == multiset{g'(a, b)}
    ensures AfterPair(h, PairWhen(p, g))(a, b) == PairWhen(p, g')(a, b)
  {
    if p(a, b) {
      FlatMapSingle(h, g(a, b));
      assert PairWhen(p, g)(a, b) == multiset{g(a, b)};
    } else {
      FlatMapStep(h, multiset{});
      assert PairWhen(p, g)(a, b) == multiset{};
    }
  }

  lemma FlatMapPairWhen<A, B, X, Y>(h: X -> multiset<Y>, p: (A, B) -> bool, g: (A, B) -> X, g': (A, B) -> Y,
                                    left: multiset<A>, right: multiset<B>)
    requires forall a, b :: a in left && b in right && p(a, b) ==> h(g(a, b)) == multiset{g'(a, b)}
    ensures FlatMap(h, Cross(PairWhen(p, g), left, right)) == Cross(PairWhen(p, g'), left, right)
  {
    FlatMapCross(h, PairWhen(p, g), left, right);
    forall a, b | a in left && b in right
      ensures AfterPair(h, PairWhen(p, g))(a, b) == PairWhen(p, g')(a, b)
    {
      AfterPairWhen(h, p, g, g', a, b);
    }
    CrossCong(AfterPair(h, PairWhen(p, g)), PairWhen(p, g'), left, right);
  }

  function Nulls(n: nat): (r: Row)
    ensures |r| == n && forall k :: 0 <= k < n ==> r[k] == Null
  {
    seq(n, _ => Null)
  }

  type Condition = (Row, Row) -> bool

  ghost function Turned(on: Condition): Condition
  {
    (r, l) => on(l, r)
  }

  /** Some row of `right` meets the join condition with `l`. */
  ghost predicate HasMatch(on: Condition, l: Row, right: Bag)
  {
    exists r :: r in right && on(l, r)
  }

  ghost function Matched(on: Condition, right: Bag): Row -> bool
  {
    l => HasMatch(on, l, right)
  }

  ghost function Unmatched(on: Condition, right: Bag): Row -> bool
  {
    l => !HasMatch(on, l, right)
  }

  ghost function Concat(): (Row, Row) -> Row
  {
    (l, r) => l + r
  }

  ghost function PadRight(n: nat): Row -> Row
  {
    l => l + Nulls(n)
  }

  ghost function PadLeft(n: nat): Row -> Row
  {
    r => Nulls(n) + r
  }

  datatype JoinType = Inner | Left | Right | Full | LeftSemi | LeftAnti | RightSemi | RightAnti | LeftMark | RightMark

  /** SQL's joined table. `nl` and `nr` are the arities of the two inputs. */
  ghost function SqlJoin(kind: JoinType, on: Condition, left: Bag, right: Bag, nl: nat, nr: nat): Bag
  {
    match kind
    case Inner => Cross(PairWhen(on, Concat()), left, right)
    case Left => Cross(PairWhen(on, Concat()), left, right) + FlatMap(When(Unmatched(on, right), PadRight(nr)), left)
    case Right =>
      Cross(PairWhen(on, Concat()), left, right) + FlatMap(When(Unmatched(Turned(on), left), PadLeft(nl)), right)
    case Full =>
      Together(Cross(PairWhen(on, Concat()), left, right), FlatMap(When(Unmatched(on, right), PadRight(nr)), left),
               FlatMap(When(Unmatched(Turned(on), left), PadLeft(nl)), right))
    case LeftSemi => Filter(Matched(on, right), left)
    case LeftAnti => Filter(Unmatched(on, right), left)
    case RightSemi => Filter(Matched(Turned(on), left), right)
    case RightAnti => Filter(Unmatched(Turned(on), left), right)
    case LeftMark => multiset{}
    case RightMark => multiset{}
  }

  /** Output semantics of the equality-join operator. */
  datatype EquiJoinKind = InnerJoin | LeftSemiJoin | LeftAntiJoin | LeftOuterJoin | FullOuterJoin
  {
    predicate LeftOnly()
    {
      LeftSemiJoin? || LeftAntiJoin?
    }

    /** Whether unmatched rows of a port survive, padded with NULL. */
    predicate Preserves(port: nat)
    {
      FullOuterJoin? || (LeftOuterJoin? && port == 0)
    }
  }

  /** What the operator emits: rows of the two ports, not yet laid out as one row. */
  datatype Fragment = Both(left: Row, right: Row) | JustLeft(left: Row) | JustRight(right: Row)

  ghost function MakeBoth(): (Row, Row) -> Fragment
  {
    (l, r) => Both(l, r)
  }

  ghost function MakeLeft(): Row -> Fragment
  {
    l => JustLeft(l)
  }

  ghost function MakeRight(): Row -> Fragment
  {
    r => JustRight(r)
  }

  ghost function JoinFragments(kind: EquiJoinKind, on: Condition, left: Bag, right: Bag): multiset<Fragment>
  {
    match kind
    case InnerJoin => Cross(PairWhen(on, MakeBoth()), left, right)
    case LeftSemiJoin => FlatMap(When(Matched(on, right), MakeLeft()), left)
    case LeftAntiJoin => FlatMap(When(Unmatched(on, right), MakeLeft()), left)
    case LeftOuterJoin =>
      Cross(PairWhen(on, MakeBoth()), left, right) + FlatMap(When(Unmatched(on, right), MakeLeft()), left)
    case FullOuterJoin =>
      Together(Cross(PairWhen(on, MakeBoth()), left, right), FlatMap(When(Unmatched(on, right), MakeLeft()), left),
               FlatMap(When(Unmatched(Turned(on), left), MakeRight()), right))
  }

  /** Lays a fragment out as one output row. */
  ghost function Layout(kind: EquiJoinKind, nl: nat, nr: nat): Fragment -> multiset<Row>
  {
    (f: Fragment) =>
      multiset{match f
               case Both(l, r) => l + r
               case JustLeft(l) => if kind.LeftOnly() then l else l + Nulls(nr)
               case JustRight(r) => Nulls(nl) + r}
  }

  ghost function EquiJoin(kind: EquiJoinKind, on: Condition, left: Bag, right: Bag, nl: nat, nr: nat): Bag
  {
    FlatMap(Layout(kind, nl, nr), JoinFragments(kind, on, left, right))
  }

  function KindOf(kind: JoinType): EquiJoinKind
    requires !kind.LeftMark? && !kind.RightMark?
  {
    match kind
    case Inner => InnerJoin
    case Left => LeftOuterJoin
    case Right => LeftOuterJoin
    case Full => FullOuterJoin
    case LeftSemi => LeftSemiJoin
    case LeftAnti => LeftAntiJoin
    case RightSemi => LeftSemiJoin
    case RightAnti => LeftAntiJoin
  }

  lemma LayoutPairs(kind: EquiJoinKind, on: Condition, left: Bag, right: Bag, nl: nat, nr: nat)
    ensures FlatMap(Layout(kind, nl, nr), Cross(PairWhen(on, MakeBoth()), left, right))
        == Cross(PairWhen(on, Concat()), left, right)
  {
    FlatMapPairWhen(Layout(kind, nl, nr), on, MakeBoth(), Concat(), left, right);
  }

  lemma LayoutLeft(kind: EquiJoinKind, p: Row -> bool, left: Bag, nl: nat, nr: nat)
    ensures FlatMap(Layout(kind, nl, nr), FlatMap(When(p, MakeLeft()), left))
         == FlatMap(When(p, if kind.LeftOnly() then Itself() else PadRight(nr)), left)
  {
    FlatMapWhen(Layout(kind, nl, nr), p, MakeLeft(), if kind.LeftOnly() then Itself() else PadRight(nr), left);
  }

  lemma LayoutRight(kind: EquiJoinKind, p: Row -> bool, right: Bag, nl: nat, nr: nat)
    ensures FlatMap(Layout(kind, nl, nr), FlatMap(When(p, MakeRight()), right)) == FlatMap(When(p, PadLeft(nl)), right)
  {
    FlatMapWhen(Layout(kind, nl, nr), p, MakeRight(), PadLeft(nl), right);
  }

  ghost function Together<X>(a: multiset<X>, b: multiset<X>, c: multiset<X>): multiset<X>
  {
    a + b + c
  }

  lemma FlatMapTogether<A, X>(h: A -> multiset<X>, a: multiset<A>, b: multiset<A>, c: multiset<A>)
    ensures FlatMap(h, Together(a, b, c)) == Together(FlatMap(h, a), FlatMap(h, b), FlatMap(h, c))
  {
    FlatMapSum(h, a + b, c);
    FlatMapSum(h, a, b);
  }

  lemma LayoutOuter(on: Condition, left: Bag, right: Bag, nl: nat, nr: nat)
    ensures EquiJoin(LeftOuterJoin, on, left, right, nl, nr) == SqlJoin(Left, on, left, right, nl, nr)
  {
    LayoutPairs(LeftOuterJoin, on, left, right, nl, nr);
    LayoutLeft(LeftOuterJoin, Unmatched(on, right), left, nl, nr);
    FlatMapSum(Layout(LeftOuterJoin, nl, nr), Cross(PairWhen(on, MakeBoth()), left, right),
               FlatMap(When(Unmatched(on, right), MakeLeft()), left));
  }

  lemma LayoutAll(on: Condition, left: Bag, right: Bag, nl: nat, nr: nat)
    ensures var h := Layout(FullOuterJoin, nl, nr);
      Together(FlatMap(h, Cross(PairWhen(on, MakeBoth()), left, right)),
               FlatMap(h, FlatMap(When(Unmatched(on, right), MakeLeft()), left)),
               FlatMap(h, FlatMap(When(Unmatched(Turned(on), left), MakeRight()), right)))
      == SqlJoin(Full, on, left, right, nl, nr)
  {
    LayoutPairs(FullOuterJoin, on, left, right, nl, nr);
    LayoutLeft(FullOuterJoin, Unmatched(on, right), left, nl, nr);
    LayoutRight(FullOuterJoin, Unmatched(Turned(on), left), right, nl, nr);
  }

  lemma LayoutFull(on: Condition, left: Bag, right: Bag, nl: nat, nr: nat)
    ensures EquiJoin(FullOuterJoin, on, left, right, nl, nr) == SqlJoin(Full, on, left, right, nl, nr)
  {
    LayoutAll(on, left, right, nl, nr);
    FlatMapTogether(Layout(FullOuterJoin, nl, nr), Cross(PairWhen(on, MakeBoth()), left, right),
                    FlatMap(When(Unmatched(on, right), MakeLeft()), left),
                    FlatMap(When(Unmatched(Turned(on), left), MakeRight()), right));
  }

  lemma LayoutLeftOnly(kind: EquiJoinKind, p: Row -> bool, left: Bag, nl: nat, nr: nat)
    requires kind.LeftOnly()
    ensures FlatMap(Layout(kind, nl, nr), FlatMap(When(p, MakeLeft()), left)) == Filter(p, left)
  {
    LayoutLeft(kind, p, left, nl, nr);
  }

  lemma LayoutSemi(on: Condition, left: Bag, right: Bag, nl: nat, nr: nat)
    ensures EquiJoin(LeftSemiJoin, on, left, right, nl, nr) == SqlJoin(LeftSemi, on, left, right, nl, nr)
  {
    LayoutLeftOnly(LeftSemiJoin, Matched(on, right), left, nl, nr);
  }

  lemma LayoutAnti(on: Condition, left: Bag, right: Bag, nl: nat, nr: nat)
    ensures EquiJoin(LeftAntiJoin, on, left, right, nl, nr) == SqlJoin(LeftAnti, on, left, right, nl, nr)
  {
    LayoutLeftOnly(LeftAntiJoin, Unmatched(on, right), left, nl, nr);
  }

  /** On the left-preserving types the operator computes SQL's joined table directly. */
  lemma EquiJoinIsSqlJoin(kind: JoinType, on: Condition, left: Bag, right: Bag, nl: nat, nr: nat)
    requires kind.Inner? || kind.Left? || kind.Full? || kind.LeftSemi? || kind.LeftAnti?
    ensures EquiJoin(KindOf(kind), on, left, right, nl, nr) == SqlJoin(kind, on, left, right, nl, nr)
  {
    match kind
    case Inner => LayoutPairs(InnerJoin, on, left, right, nl, nr);
    case Left => LayoutOuter(on, left, right, nl, nr);
    case Full => LayoutFull(on, left, right, nl, nr);
    case LeftSemi => LayoutSemi(on, left, right, nl, nr);
    case LeftAnti => LayoutAnti(on, left, right, nl, nr);
  }

  /** Selecting columns by position. */
  ghost function Select(positions: seq<nat>): Row -> Row
  {
    (row: Row) => seq(|positions|, k requires 0 <= k < |positions| =>
      if positions[k] < |row| then row[positions[k]] else Null)
  }

  ghost predicate AllLength(m: Bag, n: nat)
  {
    forall r :: r in m ==> |r| == n
  }

  /** The positions that put the columns of a swapped pair back in SQL order. */
  function SwapOrder(nl: nat, nr: nat): (order: seq<nat>)
    ensures |order| == nl + nr
    ensures forall k :: 0 <= k < nl ==> order[k] == nr + k
    ensures forall k :: nl <= k < nl + nr ==> order[k] == k - nl
  {
    seq(nl, k => nr + k) + seq(nr, k => k)
  }

  lemma SelectSwapped(l: Row, r: Row)
    ensures Select(SwapOrder(|l|, |r|))(r + l) == l + r
  {
  }

  lemma SwapPairs(on: Condition, left: Bag, right: Bag, nl: nat, nr: nat)
    requires AllLength(left, nl) && AllLength(right, nr)
    ensures Map(Select(SwapOrder(nl, nr)), Cross(PairWhen(Turned(on), Concat()), right, left))
        == Cross(PairWhen(on, Concat()), left, right)
  {
    var order := Select(SwapOrder(nl, nr));
    var back := (r: Row, l: Row) => l + r;
    forall r, l | r in right && l in left
      ensures When(Always(), order)(Concat()(r, l)) == multiset{back(r, l)}
    {
      SelectSwapped(l, r);
    }
    FlatMapPairWhen(When(Always(), order), Turned(on), Concat(), back, right, left);
    CrossFlip(PairWhen(Turned(on), back), right, left);
    CrossCong(Flip(PairWhen(Turned(on), back)), PairWhen(on, Concat()), left, right);
  }

  lemma SwapPadding(p: Row -> bool, right: Bag, nl: nat, nr: nat)
    requires AllLength(right, nr)
    ensures Map(Select(SwapOrder(nl, nr)), FlatMap(When(p, PadRight(nl)), right))
        == FlatMap(When(p, PadLeft(nl)), right)
  {
    var order := Select(SwapOrder(nl, nr));
    forall r | r in right
      ensures When(Always(), order)(PadRight(nl)(r)) == multiset{PadLeft(nl)(r)}
    {
      SelectSwapped(Nulls(nl), r);
    }
    FlatMapWhen(When(Always(), order), p, PadRight(nl), PadLeft(nl), right);
  }

  /** A right outer join is the left outer join of the swapped inputs with its columns put back. */
  lemma RightJoinBySwapping(on: Condition, left: Bag, right: Bag, nl: nat, nr: nat)
    requires AllLength(left, nl) && AllLength(right, nr)
    ensures Map(Select(SwapOrder(nl, nr)), EquiJoin(LeftOuterJoin, Turned(on), right, left, nr, nl))
        == SqlJoin(Right, on, left, right, nl, nr)
  {
    EquiJoinIsSqlJoin(Left, Turned(on), right, left, nr, nl);
    var pairs := Cross(PairWhen(Turned(on), Concat()), right, left);
    var alone := FlatMap(When(Unmatched(Turned(on), left), PadRight(nl)), right);
    FlatMapSum(When(Always(), Select(SwapOrder(nl, nr))), pairs, alone);
    SwapPairs(on, left, right, nl, nr);
    SwapPadding(Unmatched(Turned(on), left), right, nl, nr);
  }

  /** Right semi and anti joins are the left ones of the swapped inputs. */
  lemma RightExistenceBySwapping(kind: JoinType, on: Condition, left: Bag, right: Bag, nl: nat, nr: nat)
    requires kind.RightSemi? || kind.RightAnti?
    ensures EquiJoin(KindOf(kind), Turned(on), right, left, nr, nl) == SqlJoin(kind, on, left, right, nl, nr)
  {
    EquiJoinIsSqlJoin(if kind.RightSemi? then LeftSemi else LeftAnti, Turned(on), right, left, nr, nl);
  }

  /** A join only depends on its condition at pairs of input rows. */
  lemma MatchCong(on: Condition, on': Condition, left: Bag, right: Bag)
    requires forall l, r :: l in left && r in right ==> on(l, r) == on'(l, r)
    ensures forall l :: l in left ==> HasMatch(on, l, right) == HasMatch(on', l, right)
  {
  }

  lemma JoinFragmentsCong(kind: EquiJoinKind, on: Condition, on': Condition, left: Bag, right: Bag)
    requires forall l, r :: l in left && r in right ==> on(l, r) == on'(l, r)
    ensures JoinFragments(kind, on, left, right) == JoinFragments(kind, on', left, right)
  {
    MatchCong(on, on', left, right);
    MatchCong(Turned(on), Turned(on'), right, left);
    PairWhenCong(on, MakeBoth(), on', MakeBoth(), left, right);
    WhenCong(Unmatched(on, right), MakeLeft(), Unmatched(on', right), MakeLeft(), left);
    WhenCong(Matched(on, right), MakeLeft(), Matched(on', right), MakeLeft(), left);
    WhenCong(Unmatched(Turned(on), left), MakeRight(), Unmatched(Turned(on'), left), MakeRight(), right);
  }

  lemma EquiJoinCong(kind: EquiJoinKind, on: Condition, on': Condition, left: Bag, right: Bag, nl: nat, nr: nat)
    requires forall l, r :: l in left && r in right ==> on(l, r) == on'(l, r)
    ensures EquiJoin(kind, on, left, right, nl, nr) == EquiJoin(kind, on', left, right, nl, nr)
  {
    JoinFragmentsCong(kind, on, on', left, right);
  }

  ghost function Distinct(m: Bag): Bag
  {
    multiset(set r | r in m)
  }

  /** One output row per group: its key followed by the summary of its rows. */
  ghost function GroupBy(key: Row -> Row, summarize: Bag -> Row, m: Bag): Bag
  {
    FlatMap(GroupRow(key, summarize, m), multiset(set r | r in m :: key(r)))
  }

  ghost function HasKey(key: Row -> Row, k: Row): Row -> bool
  {
    r => key(r) == k
  }

  ghost function Group(key: Row -> Row, k: Row, m: Bag): Bag
  {
    FlatMap(When(HasKey(key, k), Itself()), m)
  }

  ghost function GroupRow(key: Row -> Row, summarize: Bag -> Row, m: Bag): Row -> Bag
  {
    k => multiset{k + summarize(Group(key, k, m))}
  }

  lemma GroupByCong(key: Row -> Row, summarize: Bag -> Row, key': Row -> Row, summarize': Bag -> Row, m: Bag)
    requires forall r :: r in m ==> key(r) == key'(r)
    requires forall g: Bag :: (forall r :: r in g ==> r in m) ==> summarize(g) == summarize'(g)
    ensures GroupBy(key, summarize, m) == GroupBy(key', summarize', m)
  {
    var keys := multiset(set r | r in m :: key(r));
    assert (set r | r in m :: key(r)) == (set r | r in m :: key'(r));
    forall k | k in keys
      ensures GroupRow(key, summarize, m)(k) == GroupRow(key', summarize', m)(k)
    {
      GroupCong(key, key', k, m);
      GroupMembers(key, k, m);
    }
    FlatMapCong(GroupRow(key, summarize, m), GroupRow(key', summarize', m), keys);
  }

  lemma GroupCong(key: Row -> Row, key': Row -> Row, k: Row, m: Bag)
    requires forall r :: r in m ==> key(r) == key'(r)
    ensures Group(key, k, m) == Group(key', k, m)
  {
    WhenCong(HasKey(key, k), Itself(), HasKey(key', k), Itself(), m);
  }

  lemma GroupMembers(key: Row -> Row, k: Row, m: Bag)
    ensures forall r :: r in Group(key, k, m) ==> r in m && key(r) == k
  {
    FlatMapAll(When(HasKey(key, k), Itself()), m, (r: Row) => r in m && key(r) == k);
  }

  ghost function HasValue(f: Row -> Value): Row -> bool
  {
    r => f(r).Val?
  }

  /** The non-NULL values an aggregate argument takes in a group. */
  ghost function Arguments(f: Row -> Value, g: Bag): multiset<Value>
  {
    FlatMap(When(HasValue(f), f), g)
  }

  lemma ArgumentsCong(f: Row -> Value, f': Row -> Value, g: Bag)
    requires forall r :: r in g ==> f(r) == f'(r)
    ensures Arguments(f, g) == Arguments(f', g)
  {
    WhenCong(HasValue(f), f, HasValue(f'), f', g);
  }

  /** An argument that is never NULL contributes once per row. */
  lemma ArgumentsCount(f: Row -> Value, g: Bag)
    requires forall r :: f(r).Val?
    ensures |Arguments(f, g)| == |g|
  {
    FlatMapCount(When(HasValue(f), f), g);
  }

  /** The right rows an ASOF join selects for `l`: eligible, and none eligible is closer. */
  ghost function Winners(eligible: Condition, closer: (Row, Row) -> bool, l: Row, right: Bag): set<Row>
  {
    set r | r in right && eligible(l, r) && forall r' :: r' in right && eligible(l, r') ==> !closer(r', r)
  }

  ghost function Joined(l: Row): Row -> Bag
  {
    r => multiset{l + r}
  }

  ghost function AsOfRow(eligible: Condition, closer: (Row, Row) -> bool, right: Bag, nr: nat): Row -> Bag
  {
    l => var w := Winners(eligible, closer, l, right);
         if w == {} then multiset{l + Nulls(nr)} else FlatMap(Joined(l), multiset(w))
  }

  /** Every left row with its nearest right row, or padded with NULL. */
  ghost function AsOf(eligible: Condition, closer: (Row, Row) -> bool, left: Bag, right: Bag, nr: nat): Bag
  {
    FlatMap(AsOfRow(eligible, closer, right, nr), left)
  }

  lemma WinnersCong(eligible: Condition, closer: (Row, Row) -> bool, eligible': Condition, closer': (Row, Row) -> bool,
                    l: Row, right: Bag)
    requires forall r :: r in right ==> eligible(l, r) == eligible'(l, r)
    requires forall r, r' :: r in right && r' in right ==> closer(r, r') == closer'(r, r')
    ensures Winners(eligible, closer, l, right) == Winners(eligible', closer', l, right)
  {
  }

  lemma AsOfCong(eligible: Condition, closer: (Row, Row) -> bool, eligible': Condition, closer': (Row, Row) -> bool,
                 left: Bag, right: Bag, nr: nat)
    requires forall l, r :: l in left && r in right ==> eligible(l, r) == eligible'(l, r)
    requires forall r, r' :: r in right && r' in right ==> closer(r, r') == closer'(r, r')
    ensures AsOf(eligible, closer, left, right, nr) == AsOf(eligible', closer', left, right, nr)
  {
    var f, f' := AsOfRow(eligible, closer, right, nr), AsOfRow(eligible', closer', right, nr);
    forall l | l in left
      ensures f(l) == f'(l)
    {
      WinnersCong(eligible, closer, eligible', closer', l, right);
    }
    FlatMapCong(f, f', left);
  }

  /** Closeness is a strict order of the rows. */
  ghost predicate StrictOrder(closer: (Row, Row) -> bool, rows: set<Row>)
  {
    && (forall r :: r in rows ==> !closer(r, r))
    && (forall r, s, t :: r in rows && s in rows && t in rows && closer(r, s) && closer(s, t) ==> closer(r, t))
  }

  ghost function Eligible(eligible: Condition, l: Row, right: Bag): set<Row>
  {
    set r | r in right && eligible(l, r)
  }

  /** No two different rows are closest to `l`: the ambiguity that the runtime refuses does not arise. */
  ghost predicate Untied(eligible: Condition, closer: (Row, Row) -> bool, l: Row, right: Bag)
  {
    var winners := Winners(eligible, closer, l, right);
    && StrictOrder(closer, Eligible(eligible, l, right))
    && forall r, s :: r in winners && s in winners ==> r == s
  }

  lemma {:induction false} SomeClosest(closer: (Row, Row) -> bool, rows: set<Row>) returns (m: Row)
    requires rows != {} && StrictOrder(closer, rows)
    ensures m in rows && forall r :: r in rows ==> !closer(r, m)
    decreases |rows|
  {
    m :| m in rows;
    if rows != {m} {
      var m' := SomeClosest(closer, rows - {m});
      if !closer(m, m') {
        m := m';
      }
    }
  }

  /** Without a tie an ASOF join has one output row for a left row: with the one closest eligible
      row, or padded if no row is eligible. */
  lemma UntiedRow(eligible: Condition, closer: (Row, Row) -> bool, l: Row, right: Bag, nr: nat) returns (w: Option<Row>)
    requires Untied(eligible, closer, l, right)
    ensures w.None? <==> Eligible(eligible, l, right) == {}
    ensures w.Some? ==> w.value in Eligible(eligible, l, right)
    ensures w.Some? ==> forall r :: r in Eligible(eligible, l, right) ==> !closer(r, w.value)
    ensures AsOfRow(eligible, closer, right, nr)(l) == multiset{l + if w.Some? then w.value else Nulls(nr)}
  {
    var rows := Eligible(eligible, l, right);
    if rows == {} {
      w := None;
      assert Winners(eligible, closer, l, right) == {};
    } else {
      var m := SomeClosest(closer, rows);
      w := Some(m);
      assert m in Winners(eligible, closer, l, right);
      assert Winners(eligible, closer, l, right) == {m};
      FlatMapSingle(Joined(l), m);
      assert multiset({m}) == multiset{m};
    }
  }

  /** So without ties the join neither drops nor repeats a left row. */
  lemma UntiedAsOf(eligible: Condition, closer: (Row, Row) -> bool, left: Bag, right: Bag, nr: nat)
    requires forall l :: l in left ==> Untied(eligible, closer, l, right)
    ensures |AsOf(eligible, closer, left, right, nr)| == |left|
  {
    var f := AsOfRow(eligible, closer, right, nr);
    forall l | l in left
      ensures |f(l)| == 1
    {
      var w := UntiedRow(eligible, closer, l, right, nr);
    }
    FlatMapCount(f, left);
  }
}
