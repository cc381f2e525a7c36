/** The bag a plan denotes, row by row: how often each row occurs, in SQL's own terms. */
module PlanMeanings {
  import opened Bags
  import opened Options
  import opened Expressions
  import opened Relational
  import opened JoinConditions
  import opened Plans

  // ---- The bag operators, row by row ---------------------------------------

  /** A filter keeps the rows that satisfy the condition, as often as they occur. */
  lemma FilterAt(p: Row -> bool, m: Bag, r: Row)
    ensures Filter(p, m)[r] == if p(r) then m[r] else 0
  {
    FlatMapPoint(When(p, Itself()), m, r, r);
    TimesIsProduct(m[r], When(p, Itself())(r)[r]);
  }

  /** How many rows satisfy a condition, repetitions counted. */
  ghost function Count(p: Row -> bool, m: Bag): nat
  {
    |Filter(p, m)|
  }

  ghost function TakenTo(f: Row -> Row, y: Row): Row -> bool
  {
    r => f(r) == y
  }

  /** A row occurs in the image as often as rows are taken to it. */
  lemma {:induction false} MapAt(f: Row -> Row, m: Bag, y: Row)
    ensures Map(f, m)[y] == Count(TakenTo(f, y), m)
    decreases |m|
  {
    FlatMapStep(When(Always(), f), m);
    FlatMapStep(When(TakenTo(f, y), Itself()), m);
    if |m| != 0 {
      MapAt(f, m - multiset{Pick(m)}, y);
    }
  }

  lemma DistinctAt(m: Bag, r: Row)
    ensures Distinct(m)[r] == if r in m then 1 else 0
  {
  }

  /** How often a row occurs in the first `n` bags together. */
  ghost function Total(bags: seq<Bag>, n: nat, r: Row): nat
    requires n <= |bags|
  {
    if n == 0 then 0 else Total(bags, n - 1, r) + bags[n - 1][r]
  }

  lemma {:induction false} TotalPrefix(bags: seq<Bag>, k: nat, n: nat, r: Row)
    requires n <= k <= |bags|
    ensures Total(bags[..k], n, r) == Total(bags, n, r)
  {
    if n > 0 {
      TotalPrefix(bags, k, n - 1, r);
    }
  }

  lemma {:induction false} SumAt(bags: seq<Bag>, r: Row)
    ensures Sum(bags)[r] == Total(bags, |bags|, r)
  {
    if bags != [] {
      var k := |bags| - 1;
      SumAt(bags[..k], r);
      TotalPrefix(bags, k, k, r);
    }
  }

  // ---- Joined tables -------------------------------------------------------

  /** `x` is a left and a right row that meet: as often as the two are paired. */
  ghost function Paired(on: Condition, left: Bag, right: Bag, nl: nat, x: Row): nat
  {
    if nl <= |x| && on(x[..nl], x[nl..]) then left[x[..nl]] * right[x[nl..]] else 0
  }

  predicate AllNull(x: Row)
  {
    forall k :: 0 <= k < |x| ==> x[k] == Null
  }

  /** `x` is a left row that meets no right row, followed by NULLs. */
  ghost function LeftAlone(on: Condition, left: Bag, right: Bag, nl: nat, nr: nat, x: Row): nat
  {
    if |x| == nl + nr && AllNull(x[nl..]) && !(exists r :: r in right && on(x[..nl], r)) then left[x[..nl]] else 0
  }

  /** `x` is NULLs followed by a right row that meets no left row. */
  ghost function RightAlone(on: Condition, left: Bag, right: Bag, nl: nat, nr: nat, x: Row): nat
  {
    if |x| == nl + nr && AllNull(x[..nl]) && !(exists l :: l in left && on(l, x[nl..])) then right[x[nl..]] else 0
  }

  lemma Parts(l: Row, r: Row, x: Row, nl: nat)
    requires |l| == nl && x == l + r
    ensures nl <= |x| && x[..nl] == l && x[nl..] == r
  {
  }

  /** The right rows that give `x` next to `l0`. */
  lemma PairsOf(on: Condition, right: Bag, l0: Row, nl: nat, x: Row)
    requires |l0| == nl
    ensures FlatMap(Fixed(PairWhen(on, Concat()), l0), right)[x]
         == if nl <= |x| && l0 == x[..nl] && on(l0, x[nl..]) then right[x[nl..]] else 0
  {
    var h := Fixed(PairWhen(on, Concat()), l0);
    forall r | r in right && x in h(r)
      ensures nl <= |x| && l0 == x[..nl] && r == x[nl..]
    {
      Parts(l0, r, x, nl);
    }
    if nl <= |x| && l0 == x[..nl] {
      var r0 := x[nl..];
      FlatMapPoint(h, right, r0, x);
      TimesIsProduct(right[r0], h(r0)[x]);
      assert x == l0 + r0;
    } else {
      FlatMapAbsent(h, right, x);
    }
  }

  lemma PairsAt(on: Condition, left: Bag, right: Bag, nl: nat, x: Row)
    requires AllLength(left, nl)
    ensures Cross(PairWhen(on, Concat()), left, right)[x] == Paired(on, left, right, nl, x)
  {
    var h := AcrossRight(PairWhen(on, Concat()), right);
    forall l | l in left && x in h(l)
      ensures nl <= |x| && l == x[..nl]
    {
      PairsOf(on, right, l, nl, x);
    }
    if nl <= |x| {
      FlatMapPoint(h, left, x[..nl], x);
      PairsOf(on, right, x[..nl], nl, x);
      TimesIsProduct(left[x[..nl]], h(x[..nl])[x]);
    } else {
      FlatMapAbsent(h, left, x);
    }
  }

  lemma PaddedRight(p: Row -> bool, l: Row, nr: nat, x: Row)
    ensures x in When(p, PadRight(nr))(l)
        <==> p(l) && |x| == |l| + nr && l == x[..|l|] && AllNull(x[|l|..])
  {
    if |x| == |l| + nr && l == x[..|l|] && AllNull(x[|l|..]) {
      assert x[|l|..] == Nulls(nr);
      assert x == x[..|l|] + x[|l|..];
    }
    Parts(l, Nulls(nr), l + Nulls(nr), |l|);
  }

  lemma PaddedLeft(p: Row -> bool, r: Row, nl: nat, x: Row)
    ensures x in When(p, PadLeft(nl))(r)
        <==> p(r) && |x| == nl + |r| && r == x[nl..] && AllNull(x[..nl])
  {
    if |x| == nl + |r| && r == x[nl..] && AllNull(x[..nl]) {
      assert x[..nl] == Nulls(nl);
      assert x == x[..nl] + x[nl..];
    }
    Parts(Nulls(nl), r, Nulls(nl) + r, nl);
  }

  /** A row that only `x0` is taken to occurs as often as `x0`. */
  lemma OnlyFrom(p: Row -> bool, g: Row -> Row, m: Bag, x0: Row, y: Row)
    requires forall z :: z in m && y in When(p, g)(z) ==> z == x0
    ensures FlatMap(When(p, g), m)[y] == if y in When(p, g)(x0) then m[x0] else 0
  {
    FlatMapPoint(When(p, g), m, x0, y);
    TimesIsProduct(m[x0], When(p, g)(x0)[y]);
  }

  lemma LeftAloneAt(on: Condition, left: Bag, right: Bag, nl: nat, nr: nat, x: Row)
    requires AllLength(left, nl)
    ensures FlatMap(When(Unmatched(on, right), PadRight(nr)), left)[x] == LeftAlone(on, left, right, nl, nr, x)
  {
    var p, l0 := Unmatched(on, right), if nl <= |x| then x[..nl] else [];
    forall l | l in left && x in When(p, PadRight(nr))(l)
      ensures l == l0
    {
      PaddedRight(p, l, nr, x);
    }
    OnlyFrom(p, PadRight(nr), left, l0, x);
    PaddedRight(p, l0, nr, x);
    if l0 in left {
      assert |l0| == nl;
    }
  }

  lemma RightAloneAt(on: Condition, left: Bag, right: Bag, nl: nat, nr: nat, x: Row)
    requires AllLength(right, nr)
    ensures FlatMap(When(Unmatched(Turned(on), left), PadLeft(nl)), right)[x] == RightAlone(on, left, right, nl, nr, x)
  {
    var p, r0 := Unmatched(Turned(on), left), if nl <= |x| then x[nl..] else [];
    forall r | r in right && x in When(p, PadLeft(nl))(r)
      ensures r == r0
    {
      PaddedLeft(p, r, nl, x);
    }
    OnlyFrom(p, PadLeft(nl), right, r0, x);
    PaddedLeft(p, r0, nl, x);
    if r0 in right {
      assert |r0| == nr;
    }
  }

  /** How often a row occurs in SQL's joined table: the pairs that meet, and what the kind of the
      join keeps of the rows that meet none - or, for semi and anti joins, which rows of one side stay. */
  ghost function JoinedWeight(kind: JoinType, on: Condition, left: Bag, right: Bag, nl: nat, nr: nat, x: Row): nat
  {
    match kind
    case Inner => Paired(on, left, right, nl, x)
    case Left => Paired(on, left, right, nl, x) + LeftAlone(on, left, right, nl, nr, x)
    case Right => Paired(on, left, right, nl, x) + RightAlone(on, left, right, nl, nr, x)
    case Full =>
      Paired(on, left, right, nl, x) + LeftAlone(on, left, right, nl, nr, x) + RightAlone(on, left, right, nl, nr, x)
    case LeftSemi => if exists r :: r in right && on(x, r) then left[x] else 0
    case LeftAnti => if exists r :: r in right && on(x, r) then 0 else left[x]
    case RightSemi => if exists l :: l in left && on(l, x) then right[x] else 0
    case RightAnti => if exists l :: l in left && on(l, x) then 0 else right[x]
    case _ => 0
  }

  lemma JoinedAt(kind: JoinType, on: Condition, left: Bag, right: Bag, nl: nat, nr: nat, x: Row)
    requires AllLength(left, nl) && AllLength(right, nr) && !kind.LeftMark? && !kind.RightMark?
    ensures SqlJoin(kind, on, left, right, nl, nr)[x] == JoinedWeight(kind, on, left, right, nl, nr, x)
  {
    PairsAt(on, left, right, nl, x);
    LeftAloneAt(on, left, right, nl, nr, x);
    RightAloneAt(on, left, right, nl, nr, x);
    FilterAt(Matched(on, right), left, x);
    FilterAt(Unmatched(on, right), left, x);
    FilterAt(Matched(Turned(on), left), right, x);
    FilterAt(Unmatched(Turned(on), left), right, x);
    assert HasMatch(on, x, right) <==> exists r :: r in right && on(x, r);
    assert HasMatch(Turned(on), x, left) <==> exists l :: l in left && on(l, x);
  }

  // ---- Groups --------------------------------------------------------------

  /** The rows of one group are those with its key, as often as they occur. */
  lemma GroupAt(key: Row -> Row, k: Row, m: Bag, r: Row)
    ensures Group(key, k, m)[r] == if key(r) == k then m[r] else 0
  {
    FilterAt(HasKey(key, k), m, r);
    assert Group(key, k, m) == Filter(HasKey(key, k), m);
  }

  ghost predicate IsGroupRow(key: Row -> Row, summarize: Bag -> Row, m: Bag, y: Row)
  {
    exists r :: r in m && y == key(r) + summarize(Group(key, key(r), m))
  }

  /** Grouping gives one row, once, for every key that occurs: the key and the summary of its rows. */
  lemma GroupedAt(key: Row -> Row, summarize: Bag -> Row, m: Bag, n: nat, y: Row)
    requires forall r :: r in m ==> |key(r)| == n
    ensures GroupBy(key, summarize, m)[y] == if IsGroupRow(key, summarize, m, y) then 1 else 0
  {
    var f, keys := GroupRow(key, summarize, m), set r | r in m :: key(r);
    var k0 := if n <= |y| then y[..n] else [];
    forall k | k in multiset(keys) && y in f(k)
      ensures k == k0
    {
      var r :| r in m && key(r) == k;
      Parts(k, summarize(Group(key, k, m)), y, n);
    }
    FlatMapPoint(f, multiset(keys), k0, y);
    TimesIsProduct(multiset(keys)[k0], f(k0)[y]);
    if IsGroupRow(key, summarize, m, y) {
      var r :| r in m && y == key(r) + summarize(Group(key, key(r), m));
      assert key(r) in keys;
      Parts(key(r), summarize(Group(key, key(r), m)), y, n);
    } else if k0 in keys {
      var r :| r in m && key(r) == k0;
      assert y != k0 + summarize(Group(key, k0, m));
    }
  }

  // ---- Nearest rows --------------------------------------------------------

  /** `r` is eligible for `l`, and no eligible row is closer. */
  ghost predicate Nearest(eligible: Condition, closer: (Row, Row) -> bool, l: Row, right: Bag, r: Row)
  {
    r in right && eligible(l, r) && forall r' :: r' in right && eligible(l, r') ==> !closer(r', r)
  }

  ghost predicate SomeNearest(eligible: Condition, closer: (Row, Row) -> bool, l: Row, right: Bag)
  {
    exists r :: Nearest(eligible, closer, l, right, r)
  }

  /** `rest` is a nearest right row of `l`, or NULLs where there is none. */
  ghost predicate NearestRow(eligible: Condition, closer: (Row, Row) -> bool, right: Bag, nr: nat, l: Row, rest: Row)
  {
    || Nearest(eligible, closer, l, right, rest)
    || (|rest| == nr && AllNull(rest) && !SomeNearest(eligible, closer, l, right))
  }

  lemma WinnersAreNearest(eligible: Condition, closer: (Row, Row) -> bool, l: Row, right: Bag, rest: Row)
    ensures rest in Winners(eligible, closer, l, right) <==> Nearest(eligible, closer, l, right, rest)
    ensures Winners(eligible, closer, l, right) == {} <==> !SomeNearest(eligible, closer, l, right)
  {
    forall r
      ensures r in Winners(eligible, closer, l, right) <==> Nearest(eligible, closer, l, right, r)
    {
    }
  }

  lemma AsOfRowAt(eligible: Condition, closer: (Row, Row) -> bool, right: Bag, nr: nat, l: Row, x: Row)
    ensures AsOfRow(eligible, closer, right, nr)(l)[x]
         == if |l| <= |x| && l == x[..|l|] && NearestRow(eligible, closer, right, nr, l, x[|l|..]) then 1 else 0
  {
    if |l| <= |x| {
      WinnersAreNearest(eligible, closer, l, right, x[|l|..]);
      PaddedRight(Always(), l, nr, x);
    }
    WinnersAt(l, Winners(eligible, closer, l, right), x);
  }

  lemma WinnersAt(l: Row, w: set<Row>, x: Row)
    ensures FlatMap(Joined(l), multiset(w))[x] == if |l| <= |x| && l == x[..|l|] && x[|l|..] in w then 1 else 0
  {
    var r0 := if |l| <= |x| then x[|l|..] else [];
    forall r | r in multiset(w) && x in Joined(l)(r)
      ensures r == r0 && |l| <= |x| && l == x[..|l|]
    {
      Parts(l, r, x, |l|);
    }
    FlatMapPoint(Joined(l), multiset(w), r0, x);
    TimesIsProduct(multiset(w)[r0], Joined(l)(r0)[x]);
    if |l| <= |x| && l == x[..|l|] {
      assert x == l + r0;
    }
  }

  /** A row that only `l0` yields occurs as often as `l0`, times what `l0` yields of it. */
  lemma PointFrom(f: Row -> Bag, m: Bag, l0: Row, y: Row)
    requires forall l :: l in m && y in f(l) ==> l == l0
    requires f(l0)[y] <= 1
    ensures FlatMap(f, m)[y] == if f(l0)[y] == 1 then m[l0] else 0
  {
    FlatMapPoint(f, m, l0, y);
    TimesIsProduct(m[l0], f(l0)[y]);
  }

  lemma AsOfRowFrom(eligible: Condition, closer: (Row, Row) -> bool, right: Bag, nr: nat, l: Row, x: Row)
    requires x in AsOfRow(eligible, closer, right, nr)(l)
    ensures |l| <= |x| && l == x[..|l|]
  {
    AsOfRowAt(eligible, closer, right, nr, l, x);
  }

  /** An ASOF join gives every left row next to each nearest right row, or to NULLs if there is none. */
  lemma NearestAt(eligible: Condition, closer: (Row, Row) -> bool, left: Bag, right: Bag, nl: nat, nr: nat, x: Row)
    requires AllLength(left, nl)
    ensures AsOf(eligible, closer, left, right, nr)[x]
         == if nl <= |x| && NearestRow(eligible, closer, right, nr, x[..nl], x[nl..]) then left[x[..nl]] else 0
  {
    var l0 := if nl <= |x| then x[..nl] else [];
    forall l | l in left && x in AsOfRow(eligible, closer, right, nr)(l)
      ensures l == l0 && nl <= |x|
    {
      AsOfRowFrom(eligible, closer, right, nr, l, x);
    }
    AsOfRowAt(eligible, closer, right, nr, l0, x);
    PointFrom(AsOfRow(eligible, closer, right, nr), left, l0, x);
    if nl > |x| {
      assert l0 in left ==> |l0| == nl;
      assert left[l0] == 0;
    }
  }

  // ---- The meaning of a plan, operator by operator -------------------------

  lemma RowsHaveArity(p: Plan, i: Interp, db: Database, sources: seq<Schema>)
    requires WellFormed(p, sources) && DatabaseConforms(db, sources)
    ensures AllLength(Meaning(p, i, db), Arity(p))
  {
    MeaningTyped(p, sources, i, db);
  }

  lemma CountCong(p: Row -> bool, q: Row -> bool, m: Bag)
    requires forall r :: r in m ==> p(r) == q(r)
    ensures Count(p, m) == Count(q, m)
  {
    WhenCong(p, Itself(), q, Itself(), m);
  }

  /** Column `k` of `y` is the value of expression `k` on `r`. */
  ghost predicate Computes(i: Interp, es: seq<Expr>, s: LogicalSchema, r: Row, y: Row)
  {
    |y| == |es| && forall k :: 0 <= k < |es| ==> y[k] == Eval(i, es[k], s, r)
  }

  /** Column `k` of `y` is the column of `r` at position `k`. */
  ghost predicate Picks(positions: seq<nat>, r: Row, y: Row)
  {
    |y| == |positions| && forall k :: 0 <= k < |positions| ==> positions[k] < |r| && y[k] == r[positions[k]]
  }

  /** A scan shows the columns at its positions of every source row. */
  lemma ScanMeaning(p: Plan, i: Interp, db: Database, sources: seq<Schema>, y: Row)
    requires p.TableScan? && WellFormed(p, sources) && DatabaseConforms(db, sources)
    ensures var positions := if p.projection.Some? then p.projection.value else Positions(|p.schema.fields|);
      Meaning(p, i, db)[y] == Count(r => Picks(positions, r, y), db[p.source])
  {
    var positions := ScanPositions(p.projection, |p.schema.fields|);
    MapAt(Select(positions), db[p.source], y);
    forall r | r in db[p.source]
      ensures TakenTo(Select(positions), y)(r) == Picks(positions, r, y)
    {
      assert HasTypes(r, PhysicalTypes(sources[p.source]));
      if Picks(positions, r, y) {
        assert Select(positions)(r) == y;
      }
    }
    CountCong(TakenTo(Select(positions), y), r => Picks(positions, r, y), db[p.source]);
  }

  /** WHERE keeps the rows for which its condition is TRUE, neither FALSE nor NULL. */
  lemma FilterMeaning(p: Plan, i: Interp, db: Database, r: Row)
    requires p.Filtering?
    ensures Meaning(p, i, db)[r]
         == if Eval(i, p.condition, SchemaOf(p.input), r) == Val(Boolean, 1) then Meaning(p.input, i, db)[r] else 0
  {
    FilterAt(Satisfies(i, p.condition, SchemaOf(p.input)), Meaning(p.input, i, db), r);
  }

  /** A projection shows a row as often as input rows compute it. */
  lemma ProjectionMeaning(p: Plan, i: Interp, db: Database, y: Row)
    requires p.Projection?
    ensures Meaning(p, i, db)[y] == Count(r => Computes(i, p.exprs, SchemaOf(p.input), r, y), Meaning(p.input, i, db))
  {
    var f, m := Evaluates(i, p.exprs, SchemaOf(p.input)), Meaning(p.input, i, db);
    MapAt(f, m, y);
    forall r
      ensures TakenTo(f, y)(r) == Computes(i, p.exprs, SchemaOf(p.input), r, y)
    {
      if Computes(i, p.exprs, SchemaOf(p.input), r, y) {
        assert f(r) == y;
      }
    }
    CountCong(TakenTo(f, y), r => Computes(i, p.exprs, SchemaOf(p.input), r, y), m);
  }

  /** DISTINCT shows every row once. */
  lemma DistinctMeaning(p: Plan, i: Interp, db: Database, r: Row)
    requires p.Deduplicate?
    ensures Meaning(p, i, db)[r] == if r in Meaning(p.input, i, db) then 1 else 0
  {
    DistinctAt(Meaning(p.input, i, db), r);
  }

  /** Every ON equality and the filter are TRUE of the two rows side by side. */
  ghost predicate MeetsIn(p: Plan, i: Interp, l: Row, r: Row)
    requires p.Join?
  {
    var s := LogicalSchema(SchemaOf(p.left).fields + SchemaOf(p.right).fields, map[]);
    && (forall k :: 0 <= k < |p.on| ==>
            IsTrue(Compare(i, Eq, Eval(i, p.on[k].0, s, l + r), Eval(i, p.on[k].1, s, l + r))))
    && (p.filter.Some? ==> IsTrue(Eval(i, p.filter.value, s, l + r)))
  }

  ghost function ConditionOf(p: Plan, i: Interp): Condition
    requires p.Join?
  {
    (l, r) => MeetsIn(p, i, l, r)
  }

  lemma JoinedCong(kind: JoinType, on: Condition, on': Condition, left: Bag, right: Bag, nl: nat, nr: nat, x: Row)
    requires forall l, r :: on(l, r) == on'(l, r)
    ensures JoinedWeight(kind, on, left, right, nl, nr, x) == JoinedWeight(kind, on', left, right, nl, nr, x)
  {
  }

  /** A join shows what the joined table of its kind does, under its condition. */
  lemma JoinMeaning(p: Plan, i: Interp, db: Database, sources: seq<Schema>, x: Row)
    requires p.Join? && WellFormed(p, sources) && DatabaseConforms(db, sources)
    requires !p.kind.LeftMark? && !p.kind.RightMark?
    ensures Meaning(p, i, db)[x]
         == JoinedWeight(p.kind, ConditionOf(p, i), Meaning(p.left, i, db), Meaning(p.right, i, db), Arity(p.left),
                         Arity(p.right), x)
  {
    RowsHaveArity(p.left, i, db, sources);
    RowsHaveArity(p.right, i, db, sources);
    var on := JoinOn(i, p.on, p.filter, SchemaOf(p.left), SchemaOf(p.right));
    forall l, r
      ensures on(l, r) == ConditionOf(p, i)(l, r)
    {
      ConditionMeans(p, i, l, r);
    }
    JoinedAt(p.kind, on, Meaning(p.left, i, db), Meaning(p.right, i, db), Arity(p.left), Arity(p.right), x);
    JoinedCong(p.kind, on, ConditionOf(p, i), Meaning(p.left, i, db), Meaning(p.right, i, db), Arity(p.left),
               Arity(p.right), x);
  }

  lemma ConditionMeans(p: Plan, i: Interp, l: Row, r: Row)
    requires p.Join?
    ensures JoinOn(i, p.on, p.filter, SchemaOf(p.left), SchemaOf(p.right))(l, r) == MeetsIn(p, i, l, r)
  {
    var s := Beside(SchemaOf(p.left), SchemaOf(p.right));
    forall k | 0 <= k < |p.on|
      ensures Eval(i, EqualityOf(p.on[k]), s, l + r)
          == Compare(i, Eq, Eval(i, p.on[k].0, s, l + r), Eval(i, p.on[k].1, s, l + r))
    {
    }
  }

  /** `r` satisfies the ON equalities and the MATCH_CONDITION with `l`. */
  ghost predicate Fitting(p: Plan, i: Interp, l: Row, r: Row)
    requires p.AsOfJoin?
  {
    && (forall k :: 0 <= k < |p.on| ==>
            IsTrue(Compare(i, Eq, Eval(i, p.on[k].0, SchemaOf(p.left), l), Eval(i, p.on[k].1, SchemaOf(p.right), r))))
    && IsTrue(Compare(i, p.matchOp, Eval(i, p.matchLeft, SchemaOf(p.left), l),
                      Eval(i, p.matchRight, SchemaOf(p.right), r)))
  }

  /** `r` fits `l`, and no fitting row has a later value - or an earlier one, if later rows are matched. */
  ghost predicate Closest(p: Plan, i: Interp, l: Row, right: Bag, r: Row)
    requires p.AsOfJoin?
  {
    var s := SchemaOf(p.right);
    && r in right && Fitting(p, i, l, r)
    && (p.matchOp.Gt? || p.matchOp.GtEq? ==>
          forall r' :: r' in right && Fitting(p, i, l, r') ==>
            !i.less(Eval(i, p.matchRight, s, r), Eval(i, p.matchRight, s, r')))
    && (p.matchOp.Lt? || p.matchOp.LtEq? ==>
          forall r' :: r' in right && Fitting(p, i, l, r') ==>
            !i.less(Eval(i, p.matchRight, s, r'), Eval(i, p.matchRight, s, r)))
  }

  lemma ClosestMeans(p: Plan, i: Interp, l: Row, right: Bag, r: Row)
    requires p.AsOfJoin? && OrderOperator(p.matchOp)
    ensures Nearest(AsOfEligible(i, p.on, p.matchLeft, p.matchOp, p.matchRight, SchemaOf(p.left), SchemaOf(p.right)),
                    AsOfCloser(i, p.matchOp, p.matchRight, SchemaOf(p.right)), l, right, r)
        <==> Closest(p, i, l, right, r)
  {
    var eligible := AsOfEligible(i, p.on, p.matchLeft, p.matchOp, p.matchRight, SchemaOf(p.left), SchemaOf(p.right));
    forall r'
      ensures eligible(l, r') == Fitting(p, i, l, r')
    {
    }
  }

  /** `rest` is a closest right row of `l`, or NULLs where no row fits. */
  ghost predicate ClosestRow(p: Plan, i: Interp, right: Bag, l: Row, rest: Row)
    requires p.AsOfJoin?
  {
    || Closest(p, i, l, right, rest)
    || (|rest| == Arity(p.right) && AllNull(rest) && !exists r :: Closest(p, i, l, right, r))
  }

  lemma ClosestRowMeans(p: Plan, i: Interp, right: Bag, l: Row, rest: Row)
    requires p.AsOfJoin? && OrderOperator(p.matchOp)
    ensures NearestRow(AsOfEligible(i, p.on, p.matchLeft, p.matchOp, p.matchRight, SchemaOf(p.left), SchemaOf(p.right)),
                       AsOfCloser(i, p.matchOp, p.matchRight, SchemaOf(p.right)), right, Arity(p.right), l, rest)
        <==> ClosestRow(p, i, right, l, rest)
  {
    var eligible := AsOfEligible(i, p.on, p.matchLeft, p.matchOp, p.matchRight, SchemaOf(p.left), SchemaOf(p.right));
    var closer := AsOfCloser(i, p.matchOp, p.matchRight, SchemaOf(p.right));
    ClosestMeans(p, i, l, right, rest);
    if SomeNearest(eligible, closer, l, right) {
      var r :| Nearest(eligible, closer, l, right, r);
      ClosestMeans(p, i, l, right, r);
    }
    if exists r :: Closest(p, i, l, right, r) {
      var r :| Closest(p, i, l, right, r);
      ClosestMeans(p, i, l, right, r);
    }
  }

  /** An ASOF join shows every left row next to each closest right row, or to NULLs if none fits. */
  lemma AsOfMeaning(p: Plan, i: Interp, db: Database, sources: seq<Schema>, x: Row)
    requires p.AsOfJoin? && WellFormed(p, sources) && DatabaseConforms(db, sources)
    ensures var left, nl := Meaning(p.left, i, db), Arity(p.left);
      Meaning(p, i, db)[x]
      == if nl <= |x| && ClosestRow(p, i, Meaning(p.right, i, db), x[..nl], x[nl..]) then left[x[..nl]] else 0
  {
    var left, right, nl := Meaning(p.left, i, db), Meaning(p.right, i, db), Arity(p.left);
    RowsHaveArity(p.left, i, db, sources);
    NearestAt(AsOfEligible(i, p.on, p.matchLeft, p.matchOp, p.matchRight, SchemaOf(p.left), SchemaOf(p.right)),
              AsOfCloser(i, p.matchOp, p.matchRight, SchemaOf(p.right)), left, right, nl, Arity(p.right), x);
    if nl <= |x| {
      ClosestRowMeans(p, i, right, x[..nl], x[nl..]);
    }
  }

  /** UNION ALL shows a row as often as its inputs do together. */
  lemma UnionMeaning(p: Plan, i: Interp, db: Database, r: Row)
    requires p.Union?
    ensures Meaning(p, i, db)[r]
         == Total(seq(|p.inputs|, k requires 0 <= k < |p.inputs| => Meaning(p.inputs[k], i, db)), |p.inputs|, r)
  {
    SumAt(seq(|p.inputs|, k requires 0 <= k < |p.inputs| => Meaning(p.inputs[k], i, db)), r);
  }

  /** The input rows with the group keys of `r`, as often as they occur. */
  ghost function GroupOf(p: Plan, i: Interp, m: Bag, r: Row): Bag
    requires p.Aggregate?
  {
    Filter(r' => forall k :: 0 <= k < |p.groups| ==>
             Eval(i, GroupKeys(p.groups)[k], SchemaOf(p.input), r')
             == Eval(i, GroupKeys(p.groups)[k], SchemaOf(p.input), r), m)
  }

  /** `y` lists the group keys of `r` and what the calls summarize of its group. */
  ghost predicate Summarizes(p: Plan, i: Interp, m: Bag, r: Row, y: Row)
    requires p.Aggregate?
  {
    && |y| == |p.groups| + |p.calls|
    && (forall k :: 0 <= k < |p.groups| ==> y[k] == Eval(i, GroupKeys(p.groups)[k], SchemaOf(p.input), r))
    && (forall k :: 0 <= k < |p.calls| ==>
            y[|p.groups| + k] == CallSummary(i, p.calls[k], SchemaOf(p.input), GroupOf(p, i, m, r)))
  }

  ghost predicate SomeSummarized(p: Plan, i: Interp, m: Bag, y: Row)
    requires p.Aggregate?
  {
    exists r :: r in m && Summarizes(p, i, m, r, y)
  }

  lemma GroupIs(p: Plan, i: Interp, m: Bag, r: Row)
    requires p.Aggregate?
    ensures var key := Evaluates(i, GroupKeys(p.groups), SchemaOf(p.input));
      Group(key, key(r), m) == GroupOf(p, i, m, r)
  {
    var key := Evaluates(i, GroupKeys(p.groups), SchemaOf(p.input));
    var same := r' => forall k :: 0 <= k < |p.groups| ==>
                  Eval(i, GroupKeys(p.groups)[k], SchemaOf(p.input), r')
                  == Eval(i, GroupKeys(p.groups)[k], SchemaOf(p.input), r);
    forall r'
      ensures HasKey(key, key(r))(r') == same(r')
    {
      assert forall k :: 0 <= k < |p.groups| ==>
          key(r')[k] == Eval(i, GroupKeys(p.groups)[k], SchemaOf(p.input), r')
          && key(r)[k] == Eval(i, GroupKeys(p.groups)[k], SchemaOf(p.input), r);
      if same(r') {
        assert key(r') == key(r);
      }
    }
    WhenCong(HasKey(key, key(r)), Itself(), same, Itself(), m);
  }

  /** GROUP BY shows, once for every combination of keys that occurs, the keys and the summaries. */
  lemma AggregateMeaning(p: Plan, i: Interp, db: Database, y: Row)
    requires p.Aggregate?
    ensures Meaning(p, i, db)[y] == if SomeSummarized(p, i, Meaning(p.input, i, db), y) then 1 else 0
  {
    var m := Meaning(p.input, i, db);
    var key := Evaluates(i, GroupKeys(p.groups), SchemaOf(p.input));
    var summaries := Summaries(i, p.calls, SchemaOf(p.input));
    GroupedAt(key, summaries, m, |p.groups|, y);
    GroupRowsAre(p, i, m, y);
  }

  lemma GroupRowsAre(p: Plan, i: Interp, m: Bag, y: Row)
    requires p.Aggregate?
    ensures IsGroupRow(Evaluates(i, GroupKeys(p.groups), SchemaOf(p.input)), Summaries(i, p.calls, SchemaOf(p.input)),
                       m, y)
        <==> SomeSummarized(p, i, m, y)
  {
    var key := Evaluates(i, GroupKeys(p.groups), SchemaOf(p.input));
    var summaries := Summaries(i, p.calls, SchemaOf(p.input));
    if IsGroupRow(key, summaries, m, y) {
      var r :| r in m && y == key(r) + summaries(Group(key, key(r), m));
      GroupRowIs(p, i, m, r, y);
    }
    if SomeSummarized(p, i, m, y) {
      var r :| r in m && Summarizes(p, i, m, r, y);
      GroupRowIs(p, i, m, r, y);
    }
  }

  lemma GroupRowIs(p: Plan, i: Interp, m: Bag, r: Row, y: Row)
    requires p.Aggregate?
    ensures var key, summaries := Evaluates(i, GroupKeys(p.groups), SchemaOf(p.input)),
        Summaries(i, p.calls, SchemaOf(p.input));
      y == key(r) + summaries(Group(key, key(r), m)) <==> Summarizes(p, i, m, r, y)
  {
    var key := Evaluates(i, GroupKeys(p.groups), SchemaOf(p.input));
    var summaries := Summaries(i, p.calls, SchemaOf(p.input));
    GroupIs(p, i, m, r);
    var z := key(r) + summaries(GroupOf(p, i, m, r));
    assert Summarizes(p, i, m, r, z);
    if Summarizes(p, i, m, r, y) {
      assert forall k :: 0 <= k < |y| ==> y[k] == z[k];
    }
  }

  /** COUNT counts the rows of the group whose argument is not NULL; the other functions summarize
      exactly those arguments, repetitions included. */
  lemma CallMeaning(i: Interp, call: AggregateExpr, s: LogicalSchema, g: Bag) returns (values: multiset<Value>)
    requires var c := Unaliased(call); c.AggregateFunction? && |c.args| == 1
    ensures var argument := Unaliased(call).args[0];
      && |values| == Count(r => Eval(i, argument, s, r) != Null, g)
      && forall v :: values[v] == if v == Null then 0 else Count(r => Eval(i, argument, s, r) == v, g)
    ensures var name := Unaliased(call).name;
      CallSummary(i, call, s, g)
      == if name.CountFn? then Val(Int64, |values|) else OfType(i.summary(name, values), CallType(call, s))
  {
    var c := Unaliased(call);
    var f := EvaluatesOne(i, c.args[0], s);
    values := Arguments(f, g);
    ArgumentsSize(f, g);
    CountCong(HasValue(f), r => Eval(i, c.args[0], s, r) != Null, g);
    forall v
      ensures values[v] == if v == Null then 0 else Count(r => Eval(i, c.args[0], s, r) == v, g)
    {
      ArgumentsAt(f, g, v);
      CountCong(r => f(r) == v, r => Eval(i, c.args[0], s, r) == v, g);
    }
  }

  lemma {:induction false} ArgumentsSize(f: Row -> Value, g: Bag)
    ensures |Arguments(f, g)| == Count(HasValue(f), g)
    decreases |g|
  {
    FlatMapStep(When(HasValue(f), f), g);
    FlatMapStep(When(HasValue(f), Itself()), g);
    if |g| != 0 {
      ArgumentsSize(f, g - multiset{Pick(g)});
    }
  }

  lemma {:induction false} ArgumentsAt(f: Row -> Value, g: Bag, v: Value)
    ensures Arguments(f, g)[v] == if v == Null then 0 else Count(r => f(r) == v, g)
    decreases |g|
  {
    FlatMapStep(When(HasValue(f), f), g);
    FlatMapStep(When(r => f(r) == v, Itself()), g);
    if |g| != 0 {
      ArgumentsAt(f, g - multiset{Pick(g)}, v);
    }
  }

  // ---- Three-valued logic --------------------------------------------------

  /** AND of two truth values, either of which may be unknown. */
  lemma AndTable(i: Interp, p: bool, q: bool)
    ensures Operate(i, And, Bool(p), Bool(q)) == Bool(p && q)
    ensures Operate(i, And, Bool(p), Null) == Operate(i, And, Null, Bool(p)) == if p then Null else Bool(false)
    ensures Operate(i, And, Null, Null) == Null
  {
  }

  /** A comparison with NULL is unknown; otherwise `>` turns `<` round, and `<=` and `>=` also take equal values. */
  lemma CompareTable(i: Interp, op: Operator, a: Value, b: Value)
    requires op.Eq? || OrderOperator(op)
    ensures a.Null? || b.Null? ==> Operate(i, op, a, b) == Null
    ensures a.Val? && b.Val? ==>
      match op
      case Eq => a.dtype == b.dtype && SupportsKeyType(a.dtype) ==> Operate(i, op, a, b) == Bool(a == b)
      case Lt => Operate(i, op, a, b) == Bool(i.less(a, b))
      case Gt => Operate(i, op, a, b) == Bool(i.less(b, a))
      case LtEq => Operate(i, op, a, b) == Bool(i.less(a, b) || Operate(i, Eq, a, b) == Bool(true))
      case GtEq => Operate(i, op, a, b) == Bool(i.less(b, a) || Operate(i, Eq, a, b) == Bool(true))
      case _ => true
  {
  }
}
