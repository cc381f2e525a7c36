/** Splitting a join condition into hash keys and a residual predicate, and renaming the
    residual to the ports of the physical join. */
module JoinConditions {
  import opened Options
  import opened Expressions

  type Key = (Expr, Expr)

  /** Flattens a conjunction, looking through aliases at its top. */
  function Conjuncts(e: Expr): seq<Expr>
  {
    match e
    case Binary(left, And, right) => Conjuncts(left) + Conjuncts(right)
    case Alias(inner, _) => Conjuncts(inner)
    case _ => [e]
  }

  ghost predicate AllTrue(i: Interp, es: seq<Expr>, s: LogicalSchema, row: Row)
  {
    forall k :: 0 <= k < |es| ==> IsTrue(Eval(i, es[k], s, row))
  }

  lemma AllTrueConcat(i: Interp, a: seq<Expr>, b: seq<Expr>, s: LogicalSchema, row: Row)
    ensures AllTrue(i, a + b, s, row) <==> AllTrue(i, a, s, row) && AllTrue(i, b, s, row)
  {
    if AllTrue(i, a + b, s, row) {
      forall k | 0 <= k < |a| ensures IsTrue(Eval(i, a[k], s, row)) {
        assert (a + b)[k] == a[k];
      }
      forall k | 0 <= k < |b| ensures IsTrue(Eval(i, b[k], s, row)) {
        assert (a + b)[|a| + k] == b[k];
      }
    }
  }

  /** A conjunction is TRUE exactly when each of its conjuncts is. */
  lemma {:induction false} ConjunctsTrue(i: Interp, e: Expr, s: LogicalSchema, row: Row)
    ensures AllTrue(i, Conjuncts(e), s, row) <==> IsTrue(Eval(i, e, s, row))
  {
    match e
    case Binary(left, And, right) =>
      ConjunctsTrue(i, left, s, row);
      ConjunctsTrue(i, right, s, row);
      AllTrueConcat(i, Conjuncts(left), Conjuncts(right), s, row);
    case Alias(inner, _) => ConjunctsTrue(i, inner, s, row);
    case _ =>
      assert Conjuncts(e) == [e];
      assert Conjuncts(e)[0] == e;
  }

  lemma {:induction false} ConjunctsColumns(e: Expr, p: (Option<string>, string) -> bool)
    requires AllColumns(e, p)
    ensures forall k :: 0 <= k < |Conjuncts(e)| ==> AllColumns(Conjuncts(e)[k], p)
  {
    match e
    case Binary(left, And, right) =>
      ConjunctsColumns(left, p);
      ConjunctsColumns(right, p);
    case Alias(inner, _) => ConjunctsColumns(inner, p);
    case _ =>
  }

  /** A column reference belongs to exactly one input of a join. */
  function BelongsToOne(left: LogicalSchema, right: LogicalSchema): (Option<string>, string) -> bool
  {
    (q, n) => Resolve(left, q, n).Some? != Resolve(right, q, n).Some?
  }

  /** An equality usable as a join key, oriented left to right. */
  function SupportedKey(a: Expr, b: Expr, left: LogicalSchema, right: LogicalSchema): Option<Key>
  {
    if !HasColumns(a) || !HasColumns(b) then None
    else if AllColumns(a, ResolvesIn(left)) && AllColumns(b, ResolvesIn(right)) then CheckedKey(a, b, left, right)
    else if AllColumns(b, ResolvesIn(left)) && AllColumns(a, ResolvesIn(right)) then CheckedKey(b, a, left, right)
    else None
  }

  function CheckedKey(a: Expr, b: Expr, left: LogicalSchema, right: LogicalSchema): Option<Key>
  {
    if ExprType(a, left) == ExprType(b, right) && SupportsKeyType(ExprType(a, left)) then Some((a, b)) else None
  }

  function KeyOf(conjunct: Expr, left: LogicalSchema, right: LogicalSchema): Option<Key>
  {
    if conjunct.Binary? && conjunct.op.Eq? then SupportedKey(conjunct.left, conjunct.right, left, right) else None
  }

  function KeysOf(conjuncts: seq<Expr>, left: LogicalSchema, right: LogicalSchema): seq<Key>
  {
    if conjuncts == [] then []
    else
      var last := conjuncts[|conjuncts| - 1];
      var rest := KeysOf(conjuncts[..|conjuncts| - 1], left, right);
      var key := KeyOf(last, left, right);
      if key.Some? then rest + [key.value] else rest
  }

  function ResidualsOf(conjuncts: seq<Expr>, left: LogicalSchema, right: LogicalSchema): seq<Expr>
  {
    if conjuncts == [] then []
    else
      var last := conjuncts[|conjuncts| - 1];
      var rest := ResidualsOf(conjuncts[..|conjuncts| - 1], left, right);
      if KeyOf(last, left, right).Some? then rest else rest + [last]
  }

  function EqualityOf(pair: (Expr, Expr)): Expr
  {
    Binary(pair.0, Eq, pair.1)
  }

  /** The ON pairs, then the conjuncts of the filter. */
  function ConditionConjuncts(on: seq<(Expr, Expr)>, filter: Option<Expr>): seq<Expr>
  {
    seq(|on|, k requires 0 <= k < |on| => EqualityOf(on[k])) + if filter.Some? then Conjuncts(filter.value) else []
  }

  // ---- Which equalities are keys -------------------------------------------

  /** `a` is over the left input, `b` over the right one, and neither is a constant. */
  predicate Across(a: Expr, b: Expr, left: LogicalSchema, right: LogicalSchema)
  {
    HasColumns(a) && HasColumns(b) && AllColumns(a, ResolvesIn(left)) && AllColumns(b, ResolvesIn(right))
  }

  /** Both sides have the same type, and it is one that keys may have. */
  predicate OneKeyType(a: Expr, b: Expr, left: LogicalSchema, right: LogicalSchema)
  {
    ExprType(a, left) == ExprType(b, right) && SupportsKeyType(ExprType(a, left))
  }

  /** The equality `a = b` compares the inputs in either order; `key` is the pair turned left to right.
      Where the sides fit both ways round, they stay as they are written. */
  predicate Links(a: Expr, b: Expr, left: LogicalSchema, right: LogicalSchema, key: Key)
  {
    || (key == (a, b) && Across(a, b, left, right) && OneKeyType(a, b, left, right))
    || (key == (b, a) && Across(b, a, left, right) && OneKeyType(b, a, left, right) && !Across(a, b, left, right))
  }

  predicate LinksEither(a: Expr, b: Expr, left: LogicalSchema, right: LogicalSchema)
  {
    Links(a, b, left, right, (a, b)) || Links(a, b, left, right, (b, a))
  }

  /** Some leaf of the conjunction, below ANDs and aliases alone, is such an equality. */
  predicate LeafLinks(e: Expr, left: LogicalSchema, right: LogicalSchema)
  {
    match e
    case Binary(a, And, b) => LeafLinks(a, left, right) || LeafLinks(b, left, right)
    case Alias(inner, _) => LeafLinks(inner, left, right)
    case Binary(a, Eq, b) => LinksEither(a, b, left, right)
    case _ => false
  }

  /** An ON pair or a leaf of the filter compares the inputs. */
  predicate Linked(on: seq<(Expr, Expr)>, filter: Option<Expr>, left: LogicalSchema, right: LogicalSchema)
  {
    || (exists k :: 0 <= k < |on| && LinksEither(on[k].0, on[k].1, left, right))
    || (filter.Some? && LeafLinks(filter.value, left, right))
  }

  /** `leaf` is in the conjunction, below ANDs and aliases alone. */
  predicate LeafOf(e: Expr, leaf: Expr)
  {
    match e
    case Binary(a, And, b) => LeafOf(a, leaf) || LeafOf(b, leaf)
    case Alias(inner, _) => LeafOf(inner, leaf)
    case _ => leaf == e
  }

  /** The conjunct is an equality that becomes `key`. */
  predicate Becomes(conjunct: Expr, left: LogicalSchema, right: LogicalSchema, key: Key)
  {
    conjunct.Binary? && conjunct.op.Eq? && Links(conjunct.left, conjunct.right, left, right, key)
  }

  /** An equality is taken as a key exactly when it compares the inputs, and turned left to right. */
  lemma KeyIff(conjunct: Expr, left: LogicalSchema, right: LogicalSchema, key: Key)
    ensures KeyOf(conjunct, left, right) == Some(key) <==> Becomes(conjunct, left, right, key)
    ensures KeyOf(conjunct, left, right).Some? <==> IsKey(conjunct, left, right)
  {
  }

  /** The flattened conjunction lists exactly the leaves. */
  lemma {:induction false} ConjunctsAreLeaves(e: Expr, leaf: Expr)
    ensures leaf in Conjuncts(e) <==> LeafOf(e, leaf)
  {
    match e
    case Binary(a, And, b) =>
      ConjunctsAreLeaves(a, leaf);
      ConjunctsAreLeaves(b, leaf);
    case Alias(inner, _) => ConjunctsAreLeaves(inner, leaf);
    case _ => assert Conjuncts(e) == [e];
  }

  /** The conjunct is an equality that compares the inputs. */
  predicate IsKey(conjunct: Expr, left: LogicalSchema, right: LogicalSchema)
  {
    conjunct.Binary? && conjunct.op.Eq? && LinksEither(conjunct.left, conjunct.right, left, right)
  }

  /** How many of the first `k` conjuncts are keys. */
  ghost function KeysAmong(cs: seq<Expr>, left: LogicalSchema, right: LogicalSchema, k: nat): (n: nat)
    requires k <= |cs|
    ensures n <= k
  {
    if k == 0 then 0
    else KeysAmong(cs, left, right, k - 1) + if IsKey(cs[k - 1], left, right) then 1 else 0
  }

  /** Conjunct `k` went where it belongs: in turn among the keys, or in turn among the residuals. */
  ghost predicate SortedInto(cs: seq<Expr>, left: LogicalSchema, right: LogicalSchema, keys: seq<Key>,
                             residuals: seq<Expr>, k: nat)
    requires k < |cs|
  {
    var n := KeysAmong(cs, left, right, k);
    if IsKey(cs[k], left, right)
    then n < |keys| && Becomes(cs[k], left, right, keys[n])
    else k - n < |residuals| && residuals[k - n] == cs[k]
  }

  /** Every conjunct is a key or a residual, in the order in which they are written, and nothing else is. */
  ghost predicate Splits(cs: seq<Expr>, left: LogicalSchema, right: LogicalSchema, keys: seq<Key>, residuals: seq<Expr>)
  {
    && |keys| == KeysAmong(cs, left, right, |cs|) && |residuals| == |cs| - |keys|
    && forall k :: 0 <= k < |cs| ==> SortedInto(cs, left, right, keys, residuals, k)
  }

  lemma {:induction false} KeysAmongPrefix(cs: seq<Expr>, left: LogicalSchema, right: LogicalSchema, n: nat, k: nat)
    requires k <= n <= |cs|
    ensures KeysAmong(cs[..n], left, right, k) == KeysAmong(cs, left, right, k)
  {
    if k > 0 {
      KeysAmongPrefix(cs, left, right, n, k - 1);
    }
  }

  lemma SortedPrefix(cs: seq<Expr>, left: LogicalSchema, right: LogicalSchema, keys: seq<Key>, residuals: seq<Expr>,
                     keys': seq<Key>, residuals': seq<Expr>, n: nat, k: nat)
    requires k < n <= |cs| && SortedInto(cs[..n], left, right, keys, residuals, k)
    requires keys <= keys' && residuals <= residuals'
    ensures SortedInto(cs, left, right, keys', residuals', k)
  {
    KeysAmongPrefix(cs, left, right, n, k);
    assert cs[..n][k] == cs[k];
  }

  lemma {:induction false} SplitIsSorted(cs: seq<Expr>, left: LogicalSchema, right: LogicalSchema)
    ensures Splits(cs, left, right, KeysOf(cs, left, right), ResidualsOf(cs, left, right))
  {
    if cs != [] {
      var n := |cs| - 1;
      var keys, residuals := KeysOf(cs[..n], left, right), ResidualsOf(cs[..n], left, right);
      SplitIsSorted(cs[..n], left, right);
      KeysAmongPrefix(cs, left, right, n, n);
      var key := KeyOf(cs[n], left, right);
      KeyIff(cs[n], left, right, if key.Some? then key.value else (cs[n], cs[n]));
      forall k | 0 <= k < n
        ensures SortedInto(cs, left, right, KeysOf(cs, left, right), ResidualsOf(cs, left, right), k)
      {
        SortedPrefix(cs, left, right, keys, residuals, KeysOf(cs, left, right), ResidualsOf(cs, left, right), n, k);
      }
    }
  }

  predicate SomeKey(cs: seq<Expr>, left: LogicalSchema, right: LogicalSchema)
  {
    exists k :: 0 <= k < |cs| && IsKey(cs[k], left, right)
  }

  lemma {:induction false} KeysExist(cs: seq<Expr>, left: LogicalSchema, right: LogicalSchema)
    ensures KeysOf(cs, left, right) != [] <==> SomeKey(cs, left, right)
  {
    if cs != [] {
      var n := |cs| - 1;
      KeysExist(cs[..n], left, right);
      KeyIff(cs[n], left, right, (cs[n], cs[n]));
      assert cs == cs[..n] + [cs[n]];
      SomeKeyConcat(cs[..n], [cs[n]], left, right);
      assert [cs[n]][0] == cs[n];
    }
  }

  lemma {:induction false} LeavesLink(e: Expr, left: LogicalSchema, right: LogicalSchema)
    ensures LeafLinks(e, left, right) <==> SomeKey(Conjuncts(e), left, right)
  {
    match e
    case Binary(a, And, b) =>
      LeavesLink(a, left, right);
      LeavesLink(b, left, right);
      SomeKeyConcat(Conjuncts(a), Conjuncts(b), left, right);
    case Alias(inner, _) =>
      LeavesLink(inner, left, right);
      assert Conjuncts(e) == Conjuncts(inner);
    case _ =>
      assert Conjuncts(e) == [e];
      assert Conjuncts(e)[0] == e;
  }

  lemma SomeKeyConcat(a: seq<Expr>, b: seq<Expr>, left: LogicalSchema, right: LogicalSchema)
    ensures SomeKey(a + b, left, right) <==> SomeKey(a, left, right) || SomeKey(b, left, right)
  {
    if SomeKey(a, left, right) {
      var k :| 0 <= k < |a| && IsKey(a[k], left, right);
      assert (a + b)[k] == a[k];
    }
    if SomeKey(b, left, right) {
      var k :| 0 <= k < |b| && IsKey(b[k], left, right);
      assert (a + b)[|a| + k] == b[k];
    }
  }

  /** There is a key to join by exactly when the condition compares the inputs somewhere. */
  lemma KeysIffLinked(on: seq<(Expr, Expr)>, filter: Option<Expr>, left: LogicalSchema, right: LogicalSchema)
    ensures KeysOf(ConditionConjuncts(on, filter), left, right) != [] <==> Linked(on, filter, left, right)
  {
    var pairs := seq(|on|, k requires 0 <= k < |on| => EqualityOf(on[k]));
    var leaves := if filter.Some? then Conjuncts(filter.value) else [];
    KeysExist(pairs + leaves, left, right);
    SomeKeyConcat(pairs, leaves, left, right);
    PairsLink(on, pairs, left, right);
    if filter.Some? {
      LeavesLink(filter.value, left, right);
    }
  }

  /** The conjuncts of a join are its ON pairs, in order, and then the leaves of its filter. */
  lemma ConditionListed(on: seq<(Expr, Expr)>, filter: Option<Expr>, leaf: Expr)
    ensures var all := ConditionConjuncts(on, filter);
      && |on| <= |all| && (forall k :: 0 <= k < |on| ==> all[k] == Binary(on[k].0, Eq, on[k].1))
      && (leaf in all[|on|..] <==> filter.Some? && LeafOf(filter.value, leaf))
  {
    var leaves := if filter.Some? then Conjuncts(filter.value) else [];
    assert ConditionConjuncts(on, filter)[|on|..] == leaves;
    if filter.Some? {
      ConjunctsAreLeaves(filter.value, leaf);
    }
  }

  lemma PairsLink(on: seq<(Expr, Expr)>, pairs: seq<Expr>, left: LogicalSchema, right: LogicalSchema)
    requires |pairs| == |on| && forall k :: 0 <= k < |on| ==> pairs[k] == EqualityOf(on[k])
    ensures SomeKey(pairs, left, right) <==> exists k :: 0 <= k < |on| && LinksEither(on[k].0, on[k].1, left, right)
  {
    if SomeKey(pairs, left, right) {
      var k :| 0 <= k < |pairs| && IsKey(pairs[k], left, right);
      assert LinksEither(on[k].0, on[k].1, left, right);
    }
    if exists k :: 0 <= k < |on| && LinksEither(on[k].0, on[k].1, left, right) {
      var k :| 0 <= k < |on| && LinksEither(on[k].0, on[k].1, left, right);
      assert IsKey(pairs[k], left, right);
    }
  }

  lemma CollectNext(all: seq<Expr>, k: nat, left: LogicalSchema, right: LogicalSchema)
    requires k < |all|
    ensures var key := KeyOf(all[k], left, right);
      && KeysOf(all[..k + 1], left, right) == KeysOf(all[..k], left, right) + (if key.Some? then [key.value] else [])
      && ResidualsOf(all[..k + 1], left, right)
          == ResidualsOf(all[..k], left, right) + (if key.Some? then [] else [all[k]])
  {
    assert all[..k + 1][..k] == all[..k];
  }

  /** Collects keys and residuals in one pass over the ON pairs and one over the filter's conjuncts. */
  method CollectJoinCondition(on: seq<(Expr, Expr)>, filter: Option<Expr>, left: LogicalSchema, right: LogicalSchema)
    returns (keys: seq<Key>, residuals: seq<Expr>)
    ensures keys == KeysOf(ConditionConjuncts(on, filter), left, right)
    ensures residuals == ResidualsOf(ConditionConjuncts(on, filter), left, right)
    ensures Splits(ConditionConjuncts(on, filter), left, right, keys, residuals)
    ensures keys != [] <==> Linked(on, filter, left, right)
  {
    SplitIsSorted(ConditionConjuncts(on, filter), left, right);
    KeysIffLinked(on, filter, left, right);
    ghost var all := ConditionConjuncts(on, filter);
    keys, residuals := CollectOnPairs(on, all, left, right);
    if filter.Some? {
      keys, residuals := CollectPredicates(Conjuncts(filter.value), |on|, all, keys, residuals, left, right);
    }
    assert all[..|all|] == all;
  }

  method CollectPredicates(predicates: seq<Expr>, ghost start: nat, ghost all: seq<Expr>, keys0: seq<Key>,
                           residuals0: seq<Expr>, left: LogicalSchema, right: LogicalSchema)
    returns (keys: seq<Key>, residuals: seq<Expr>)
    requires start + |predicates| == |all| && all[start..] == predicates
    requires keys0 == KeysOf(all[..start], left, right) && residuals0 == ResidualsOf(all[..start], left, right)
    ensures keys == KeysOf(all, left, right) && residuals == ResidualsOf(all, left, right)
  {
    keys, residuals := keys0, residuals0;
    for k := 0 to |predicates|
      invariant keys == KeysOf(all[..start + k], left, right) && residuals == ResidualsOf(all[..start + k], left, right)
    {
      CollectNext(all, start + k, left, right);
      var key := KeyOf(predicates[k], left, right);
      if key.Some? {
        keys := keys + [key.value];
      } else {
        residuals := residuals + [predicates[k]];
      }
    }
    assert all[..start + |predicates|] == all;
  }

  method CollectOnPairs(on: seq<(Expr, Expr)>, ghost all: seq<Expr>, left: LogicalSchema, right: LogicalSchema)
    returns (keys: seq<Key>, residuals: seq<Expr>)
    requires |on| <= |all| && forall k :: 0 <= k < |on| ==> all[k] == EqualityOf(on[k])
    ensures keys == KeysOf(all[..|on|], left, right)
    ensures residuals == ResidualsOf(all[..|on|], left, right)
  {
    keys, residuals := [], [];
    for k := 0 to |on|
      invariant keys == KeysOf(all[..k], left, right) && residuals == ResidualsOf(all[..k], left, right)
    {
      CollectNext(all, k, left, right);
      var key := SupportedKey(on[k].0, on[k].1, left, right);
      if key.Some? {
        keys := keys + [key.value];
      } else {
        residuals := residuals + [EqualityOf(on[k])];
      }
    }
  }

  /** Both sides of a key are non-NULL and equal. */
  ghost predicate KeyMatches(a: Value, b: Value)
  {
    a.Val? && a == b
  }

  ghost predicate KeysMatch(i: Interp, keys: seq<Key>, left: LogicalSchema, right: LogicalSchema, l: Row, r: Row)
  {
    forall k :: 0 <= k < |keys| ==> KeyMatches(Eval(i, keys[k].0, left, l), Eval(i, keys[k].1, right, r))
  }

  lemma ResolveBeside(left: LogicalSchema, right: LogicalSchema, q: Option<string>, n: string)
    ensures Resolve(left, q, n).Some? ==> Resolve(Beside(left, right), q, n) == Resolve(left, q, n)
    ensures Resolve(left, q, n).None? && Resolve(right, q, n).Some?
        ==> Resolve(Beside(left, right), q, n) == Some(|left.fields| + Resolve(right, q, n).value)
  {
    var both := Beside(left, right);
    var b := Resolve(both, q, n);
    if Resolve(left, q, n).Some? {
      var k := Resolve(left, q, n).value;
      assert Names(both.fields[k], q, n);
      assert b.Some? && b.value <= k;
      assert both.fields[b.value] == left.fields[b.value];
    } else if Resolve(right, q, n).Some? {
      var k := Resolve(right, q, n).value;
      assert Names(both.fields[|left.fields| + k], q, n);
      assert b.Some?;
    }
  }

  lemma EvalOnLeft(i: Interp, e: Expr, left: LogicalSchema, right: LogicalSchema, l: Row, r: Row)
    requires AllColumns(e, ResolvesIn(left)) && |l| == |left.fields|
    ensures Eval(i, e, Beside(left, right), l + r) == Eval(i, e, left, l)
  {
    forall q, n | ResolvesIn(left)(q, n)
      ensures Eval(i, Column(q, n), Beside(left, right), l + r) == Eval(i, Column(q, n), left, l)
    {
      ResolveBeside(left, right, q, n);
    }
    EvalAgrees(i, e, ResolvesIn(left), left, l, Beside(left, right), l + r);
  }

  function OnlyIn(right: LogicalSchema, left: LogicalSchema): (Option<string>, string) -> bool
  {
    (q, n) => Resolve(right, q, n).Some? && Resolve(left, q, n).None?
  }

  lemma EvalOnRight(i: Interp, e: Expr, left: LogicalSchema, right: LogicalSchema, l: Row, r: Row)
    requires AllColumns(e, OnlyIn(right, left)) && |l| == |left.fields| && |r| == |right.fields|
    ensures Eval(i, e, Beside(left, right), l + r) == Eval(i, e, right, r)
  {
    forall q, n | OnlyIn(right, left)(q, n)
      ensures Eval(i, Column(q, n), Beside(left, right), l + r) == Eval(i, Column(q, n), right, r)
    {
      ResolveBeside(left, right, q, n);
    }
    EvalAgrees(i, e, OnlyIn(right, left), right, r, Beside(left, right), l + r);
  }

  lemma {:induction false} BothColumns(e: Expr, p: (Option<string>, string) -> bool,
                                       p': (Option<string>, string) -> bool, both: (Option<string>, string) -> bool)
    requires AllColumns(e, p) && AllColumns(e, p')
    requires forall q, n :: p(q, n) && p'(q, n) ==> both(q, n)
    ensures AllColumns(e, both)
  {
    match e
    case Column(_, _) =>
    case Literal(_) =>
    case Alias(inner, _) => BothColumns(inner, p, p', both);
    case Binary(left, _, right) =>
      BothColumns(left, p, p', both);
      BothColumns(right, p, p', both);
    case Call(_, _, args) =>
      forall k | 0 <= k < |args| ensures AllColumns(args[k], both) {
        BothColumns(args[k], p, p', both);
      }
  }

  /** The oriented sides of a key keep their values when evaluated on one input alone. */
  lemma OrientedKey(i: Interp, a: Expr, b: Expr, left: LogicalSchema, right: LogicalSchema, l: Row, r: Row)
    requires AllColumns(a, ResolvesIn(left)) && AllColumns(b, ResolvesIn(right))
    requires AllColumns(b, BelongsToOne(left, right))
    requires |l| == |left.fields| && |r| == |right.fields|
    ensures Eval(i, a, Beside(left, right), l + r) == Eval(i, a, left, l)
    ensures Eval(i, b, Beside(left, right), l + r) == Eval(i, b, right, r)
  {
    EvalOnLeft(i, a, left, right, l, r);
    BothColumns(b, ResolvesIn(right), BelongsToOne(left, right), OnlyIn(right, left));
    EvalOnRight(i, b, left, right, l, r);
  }

  lemma CheckedKeySound(i: Interp, a: Expr, b: Expr, left: LogicalSchema, right: LogicalSchema, l: Row, r: Row)
    requires AllColumns(a, ResolvesIn(left)) && AllColumns(b, ResolvesIn(right))
    requires AllColumns(b, BelongsToOne(left, right))
    requires HasTypes(l, Types(left)) && HasTypes(r, Types(right))
    requires CheckedKey(a, b, left, right).Some?
    ensures IsTrue(Compare(i, Eq, Eval(i, a, Beside(left, right), l + r), Eval(i, b, Beside(left, right), l + r)))
        <==> KeyMatches(Eval(i, a, left, l), Eval(i, b, right, r))
  {
    OrientedKey(i, a, b, left, right, l, r);
    EvalConforms(i, a, left, l);
    EvalConforms(i, b, right, r);
    KeyEquality(i, Eval(i, a, left, l), Eval(i, b, right, r), ExprType(a, left));
  }

  lemma CompareSymmetric(i: Interp, a: Value, b: Value, t: DataType)
    requires Conforms(a, t) && Conforms(b, t) && SupportsKeyType(t)
    ensures IsTrue(Compare(i, Eq, a, b)) <==> IsTrue(Compare(i, Eq, b, a))
  {
  }

  /** An equality taken as a key is TRUE exactly when the key matches, NULLs included. */
  lemma KeyOfSound(i: Interp, c: Expr, left: LogicalSchema, right: LogicalSchema, l: Row, r: Row)
    requires KeyOf(c, left, right).Some? && AllColumns(c, BelongsToOne(left, right))
    requires HasTypes(l, Types(left)) && HasTypes(r, Types(right))
    ensures var key := KeyOf(c, left, right).value;
      IsTrue(Eval(i, c, Beside(left, right), l + r)) <==> KeyMatches(Eval(i, key.0, left, l), Eval(i, key.1, right, r))
  {
    var a, b := c.left, c.right;
    if AllColumns(a, ResolvesIn(left)) && AllColumns(b, ResolvesIn(right)) {
      CheckedKeySound(i, a, b, left, right, l, r);
    } else {
      CheckedKeySound(i, b, a, left, right, l, r);
      OrientedKey(i, b, a, left, right, l, r);
      EvalConforms(i, b, left, l);
      EvalConforms(i, a, right, r);
      CompareSymmetric(i, Eval(i, a, right, r), Eval(i, b, left, l), ExprType(b, left));
    }
  }

  /** Every conjunct is TRUE exactly when every key matches and every residual is TRUE. */
  lemma {:induction false} SplitSound(i: Interp, cs: seq<Expr>, left: LogicalSchema, right: LogicalSchema, l: Row,
                                      r: Row)
    requires forall k :: 0 <= k < |cs| ==> AllColumns(cs[k], BelongsToOne(left, right))
    requires HasTypes(l, Types(left)) && HasTypes(r, Types(right))
    ensures AllTrue(i, cs, Beside(left, right), l + r) <==>
      KeysMatch(i, KeysOf(cs, left, right), left, right, l, r) && AllTrue(i, ResidualsOf(cs, left, right),
                                                                          Beside(left, right), l + r)
  {
    if cs != [] {
      var last := cs[|cs| - 1];
      var rest := cs[..|cs| - 1];
      SplitSound(i, rest, left, right, l, r);
      AllTrueLast(i, cs, Beside(left, right), l + r);
      if KeyOf(last, left, right).Some? {
        KeyOfSound(i, last, left, right, l, r);
        KeysMatchAppend(i, KeysOf(rest, left, right), KeyOf(last, left, right).value, left, right, l, r);
      } else {
        AllTrueAppend(i, ResidualsOf(rest, left, right), last, Beside(left, right), l + r);
      }
    }
  }

  lemma AllTrueAppend(i: Interp, es: seq<Expr>, e: Expr, s: LogicalSchema, row: Row)
    ensures AllTrue(i, es + [e], s, row) <==> AllTrue(i, es, s, row) && IsTrue(Eval(i, e, s, row))
  {
    AllTrueConcat(i, es, [e], s, row);
    assert [e][0] == e;
  }

  lemma AllTrueLast(i: Interp, es: seq<Expr>, s: LogicalSchema, row: Row)
    requires es != []
    ensures AllTrue(i, es, s, row) <==>
      AllTrue(i, es[..|es| - 1], s, row) && IsTrue(Eval(i, es[|es| - 1], s, row))
  {
    AllTrueAppend(i, es[..|es| - 1], es[|es| - 1], s, row);
    assert es[..|es| - 1] + [es[|es| - 1]] == es;
  }

  lemma KeysMatchAppend(i: Interp, keys: seq<Key>, key: Key, left: LogicalSchema, right: LogicalSchema, l: Row, r: Row)
    ensures KeysMatch(i, keys + [key], left, right, l, r) <==>
      KeysMatch(i, keys, left, right, l, r) && KeyMatches(Eval(i, key.0, left, l), Eval(i, key.1, right, r))
  {
    var all := keys + [key];
    if KeysMatch(i, all, left, right, l, r) {
      assert all[|keys|] == key;
      forall k | 0 <= k < |keys| ensures KeyMatches(Eval(i, keys[k].0, left, l), Eval(i, keys[k].1, right, r)) {
        assert all[k] == keys[k];
      }
    }
  }

  lemma {:induction false} KeysOfColumns(cs: seq<Expr>, left: LogicalSchema, right: LogicalSchema)
    ensures forall k :: 0 <= k < |KeysOf(cs, left, right)| ==>
      && AllColumns(KeysOf(cs, left, right)[k].0, ResolvesIn(left))
      && AllColumns(KeysOf(cs, left, right)[k].1, ResolvesIn(right))
  {
    if cs != [] {
      KeysOfColumns(cs[..|cs| - 1], left, right);
    }
  }

  lemma {:induction false} ResidualsOfColumns(cs: seq<Expr>, left: LogicalSchema, right: LogicalSchema)
    requires forall k :: 0 <= k < |cs| ==> AllColumns(cs[k], BelongsToOne(left, right))
    ensures forall k :: 0 <= k < |ResidualsOf(cs, left, right)| ==>
        AllColumns(ResidualsOf(cs, left, right)[k], BelongsToOne(left, right))
  {
    if cs != [] {
      ResidualsOfColumns(cs[..|cs| - 1], left, right);
    }
  }

  /** Joins the residuals with AND, from the left. */
  function Reduce(es: seq<Expr>): Option<Expr>
  {
    if es == [] then None
    else
      var rest := Reduce(es[..|es| - 1]);
      var last := es[|es| - 1];
      if rest.Some? then Some(Binary(rest.value, And, last)) else Some(last)
  }

  lemma {:induction false} ReduceTrue(i: Interp, es: seq<Expr>, s: LogicalSchema, row: Row)
    ensures Reduce(es).Some? <==> es != []
    ensures AllTrue(i, es, s, row) <==> (Reduce(es).Some? ==> IsTrue(Eval(i, Reduce(es).value, s, row)))
  {
    if es != [] {
      var rest := es[..|es| - 1];
      var last := es[|es| - 1];
      ReduceTrue(i, rest, s, row);
      AllTrueLast(i, es, s, row);
    }
  }

  lemma {:induction false} ReduceColumns(es: seq<Expr>, p: (Option<string>, string) -> bool)
    requires forall k :: 0 <= k < |es| ==> AllColumns(es[k], p)
    ensures Reduce(es).Some? ==> AllColumns(Reduce(es).value, p)
  {
    if es != [] {
      ReduceColumns(es[..|es| - 1], p);
    }
  }

  function Qualify(port: string, s: Schema): (r: LogicalSchema)
    ensures |r.fields| == |s.fields|
  {
    LogicalSchema(seq(|s.fields|, k requires 0 <= k < |s.fields| => QualifiedField(Some(port), s.fields[k])), map[])
  }

  /** The schema a residual is bound to: port 0 as `left`, port 1 as `right`. */
  function CandidateSchema(port0: Schema, port1: Schema): (r: LogicalSchema)
    ensures |r.fields| == |port0.fields| + |port1.fields|
  {
    Beside(Qualify("left", port0), Qualify("right", port1))
  }

  function PortColumn(left: LogicalSchema, right: LogicalSchema, physicalLeft: Schema, physicalRight: Schema,
                      leftPort: string, rightPort: string)
    : (Option<string>, string) -> Option<Expr>
  {
    (q, n) =>
      var l := Resolve(left, q, n);
      var r := Resolve(right, q, n);
      if l.Some? && r.None? && l.value < |physicalLeft.fields|
      then Some(Column(Some(leftPort), physicalLeft.fields[l.value].name))
      else if l.None? && r.Some? && r.value < |physicalRight.fields|
      then Some(Column(Some(rightPort), physicalRight.fields[r.value].name))
      else None
  }

  /** Renames a residual's columns to the ports of the oriented join. */
  function RewriteJoinResidual(e: Expr, left: LogicalSchema, right: LogicalSchema, port0: Schema, port1: Schema,
                               swapped: bool): Option<Expr>
  {
    var physicalLeft := if swapped then port1 else port0;
    var physicalRight := if swapped then port0 else port1;
    if |left.fields| != |physicalLeft.fields| || |right.fields| != |physicalRight.fields| then None
    else TransformColumns(e, PortColumn(left, right, physicalLeft, physicalRight,
                                        if swapped then "right" else "left", if swapped then "left" else "right"))
  }

  lemma ResolveQualified(port: string, s: Schema, k: nat)
    requires UniqueNames(s) && k < |s.fields|
    ensures Resolve(Qualify(port, s), Some(port), s.fields[k].name) == Some(k)
  {
    var u := Qualify(port, s);
    assert Names(u.fields[k], Some(port), s.fields[k].name);
    var r := Resolve(u, Some(port), s.fields[k].name);
    assert r.Some?;
    assert u.fields[r.value].field == s.fields[r.value];
  }

  lemma ResolveCandidate(port0: Schema, port1: Schema, port: nat, k: nat)
    requires UniqueNames(port0) && UniqueNames(port1) && port <= 1
    requires k < |(if port == 0 then port0 else port1).fields|
    ensures port == 0 ==> Resolve(CandidateSchema(port0, port1), Some("left"), port0.fields[k].name) == Some(k)
    ensures port == 1 ==>
      Resolve(CandidateSchema(port0, port1), Some("right"), port1.fields[k].name) == Some(|port0.fields| + k)
  {
    var a, b := Qualify("left", port0), Qualify("right", port1);
    if port == 0 {
      ResolveQualified("left", port0, k);
      ResolveBeside(a, b, Some("left"), port0.fields[k].name);
    } else {
      ResolveQualified("right", port1, k);
      ResolveBeside(a, b, Some("right"), port1.fields[k].name);
      assert "left" != "right" by { assert |"left"| != |"right"|; }
    }
  }

  lemma RewriteJoinResidualTotal(e: Expr, left: LogicalSchema, right: LogicalSchema, port0: Schema, port1: Schema,
                                 swapped: bool)
    requires AllColumns(e, BelongsToOne(left, right))
    requires |left.fields| == |(if swapped then port1 else port0).fields|
    requires |right.fields| == |(if swapped then port0 else port1).fields|
    ensures RewriteJoinResidual(e, left, right, port0, port1, swapped).Some?
  {
    TransformTotal(e, PortColumn(left, right, if swapped then port1 else port0, if swapped then port0 else port1,
                                 if swapped then "right" else "left",
                                 if swapped then "left" else "right"),
                                 BelongsToOne(left, right));
  }

  lemma PortColumnSound(i: Interp, q: Option<string>, n: string, left: LogicalSchema, right: LogicalSchema,
                        port0: Schema, port1: Schema, swapped: bool, l: Row, r: Row)
    requires BelongsToOne(left, right)(q, n) && UniqueNames(port0) && UniqueNames(port1)
    requires |left.fields| == |(if swapped then port1 else port0).fields| == |l|
    requires |right.fields| == |(if swapped then port0 else port1).fields| == |r|
    ensures var f := PortColumn(left, right, if swapped then port1 else port0, if swapped then port0 else port1,
                                 if swapped then "right" else "left", if swapped then "left" else "right");
      f(q, n).Some? ==>
        Eval(i, f(q, n).value, CandidateSchema(port0, port1), if swapped then r + l else l + r)
          == Eval(i, Column(q, n), Beside(left, right), l + r)
  {
    ResolveBeside(left, right, q, n);
    if Resolve(left, q, n).Some? {
      ResolveCandidate(port0, port1, if swapped then 1 else 0, Resolve(left, q, n).value);
    } else {
      ResolveCandidate(port0, port1, if swapped then 0 else 1, Resolve(right, q, n).value);
    }
  }

  /** The renamed residual has the value of the original on every candidate pair, in either orientation. */
  lemma RewriteJoinResidualSound(i: Interp, e: Expr, left: LogicalSchema, right: LogicalSchema, port0: Schema,
                                 port1: Schema, swapped: bool, l: Row, r: Row)
    requires AllColumns(e, BelongsToOne(left, right)) && UniqueNames(port0) && UniqueNames(port1)
    requires |left.fields| == |(if swapped then port1 else port0).fields| == |l|
    requires |right.fields| == |(if swapped then port0 else port1).fields| == |r|
    requires RewriteJoinResidual(e, left, right, port0, port1, swapped).Some?
    ensures Eval(i, RewriteJoinResidual(e, left, right, port0, port1, swapped).value, CandidateSchema(port0, port1),
                 if swapped then r + l else l + r)
         == Eval(i, e, Beside(left, right), l + r)
  {
    var f := PortColumn(left, right, if swapped then port1 else port0, if swapped then port0 else port1,
                        if swapped then "right" else "left", if swapped then "left" else "right");
    var row' := if swapped then r + l else l + r;
    forall q, n | BelongsToOne(left, right)(q, n) && f(q, n).Some?
      ensures Eval(i, f(q, n).value, CandidateSchema(port0, port1), row')
          == Eval(i, Column(q, n), Beside(left, right), l + r)
    {
      PortColumnSound(i, q, n, left, right, port0, port1, swapped, l, r);
    }
    TransformSound(i, e, f, BelongsToOne(left, right), Beside(left, right), l + r, CandidateSchema(port0, port1), row');
  }

  /** Renaming to ports keeps the type of a residual when the positions agree on types. */
  lemma {:induction false} RewriteJoinResidualType(e: Expr, left: LogicalSchema, right: LogicalSchema, port0: Schema,
                                                   port1: Schema, swapped: bool)
    requires AllColumns(e, BelongsToOne(left, right)) && UniqueNames(port0) && UniqueNames(port1)
    requires Types(left) == PhysicalTypes(if swapped then port1 else port0)
    requires Types(right) == PhysicalTypes(if swapped then port0 else port1)
    requires RewriteJoinResidual(e, left, right, port0, port1, swapped).Some?
    ensures ExprType(RewriteJoinResidual(e, left, right, port0, port1, swapped).value, CandidateSchema(port0, port1))
         == ExprType(e, Beside(left, right))
  {
    match e
    case Column(q, n) => PortColumnType(q, n, left, right, port0, port1, swapped);
    case Literal(_) =>
    case Alias(inner, _) => RewriteJoinResidualType(inner, left, right, port0, port1, swapped);
    case Binary(_, _, _) =>
    case Call(_, _, _) =>
  }

  lemma CandidateType(port0: Schema, port1: Schema, port: nat, k: nat)
    requires UniqueNames(port0) && UniqueNames(port1) && port <= 1
    requires k < |(if port == 0 then port0 else port1).fields|
    ensures port == 0 ==>
      ExprType(Column(Some("left"), port0.fields[k].name), CandidateSchema(port0, port1)) == PhysicalTypes(port0)[k]
    ensures port == 1 ==>
      ExprType(Column(Some("right"), port1.fields[k].name), CandidateSchema(port0, port1)) == PhysicalTypes(port1)[k]
  {
    ResolveCandidate(port0, port1, port, k);
  }

  lemma BesideType(left: LogicalSchema, right: LogicalSchema, q: Option<string>, n: string)
    requires BelongsToOne(left, right)(q, n)
    ensures Resolve(left, q, n).Some? ==>
      ExprType(Column(q, n), Beside(left, right)) == Types(left)[Resolve(left, q, n).value]
    ensures Resolve(right, q, n).Some? ==>
      ExprType(Column(q, n), Beside(left, right)) == Types(right)[Resolve(right, q, n).value]
  {
    ResolveBeside(left, right, q, n);
  }

  lemma PortColumnType(q: Option<string>, n: string, left: LogicalSchema, right: LogicalSchema, port0: Schema,
                       port1: Schema, swapped: bool)
    requires BelongsToOne(left, right)(q, n) && UniqueNames(port0) && UniqueNames(port1)
    requires Types(left) == PhysicalTypes(if swapped then port1 else port0)
    requires Types(right) == PhysicalTypes(if swapped then port0 else port1)
    ensures var column := RewriteJoinResidual(Column(q, n), left, right, port0, port1, swapped);
      && column.Some?
      && ExprType(column.value, CandidateSchema(port0, port1)) == ExprType(Column(q, n), Beside(left, right))
  {
    assert |left.fields| == |Types(left)| && |right.fields| == |Types(right)|;
    assert |port0.fields| == |PhysicalTypes(port0)| && |port1.fields| == |PhysicalTypes(port1)|;
    BesideType(left, right, q, n);
    if Resolve(left, q, n).Some? {
      CandidateType(port0, port1, if swapped then 1 else 0, Resolve(left, q, n).value);
    } else {
      CandidateType(port0, port1, if swapped then 0 else 1, Resolve(right, q, n).value);
    }
  }
}
