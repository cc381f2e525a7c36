/** Finite bags as multisets, with the algebra of `FlatMap`: the one operation every
    relational operator in this project is built from. */
module Bags {

  ghost function Pick<A>(m: multiset<A>): (x: A)
    requires |m| != 0
    ensures x in m
  {
    var x :| x in m; x
  }

  /** Element by element, in the order that `Pick` chooses. */
  ghost function Collect<A, B>(f: A -> multiset<B>, m: multiset<A>): multiset<B>
  {
    if |m| == 0 then multiset{} else f(Pick(m)) + Collect(f, m - multiset{Pick(m)})
  }

  ghost predicate Collects<A, B>(f: A -> multiset<B>, m: multiset<A>, r: multiset<B>, at: int)
  {
    r == Collect(f, m)
  }

  /** Replaces every occurrence of every element by the bag `f` gives for it. The recursion stays
      behind a choice, so that proofs rest on the laws below and not on its unfolding. */
  ghost function FlatMap<A, B>(f: A -> multiset<B>, m: multiset<A>): multiset<B>
  {
    assert forall at: int :: Collects(f, m, Collect(f, m), at);
    var r :| forall at: int :: Collects(f, m, r, at);
    r
  }

  lemma FlatMapStep<A, B>(f: A -> multiset<B>, m: multiset<A>)
    ensures FlatMap(f, m) == if |m| == 0 then multiset{} else f(Pick(m)) + FlatMap(f, m - multiset{Pick(m)})
  {
    assert Collects(f, m, FlatMap(f, m), 0);
    if |m| != 0 {
      assert Collects(f, m - multiset{Pick(m)}, FlatMap(f, m - multiset{Pick(m)}), 0);
    }
  }

  lemma SwapFirst<A>(a: multiset<A>, b: multiset<A>, c: multiset<A>)
    ensures a + (b + c) == b + (a + c)
  {
  }

  lemma RemoveTwo<A>(m: multiset<A>, x: A, y: A)
    requires x in m && y in m && x != y
    ensures y in m - multiset{x} && x in m - multiset{y}
    ensures m - multiset{x} - multiset{y} == m - multiset{y} - multiset{x}
    ensures |m - multiset{x}| == |m| - 1 && |m - multiset{y}| == |m| - 1
  {
  }

  /** The choice of element made by `Pick` does not matter. */
  lemma {:induction false} FlatMapRemove<A, B>(f: A -> multiset<B>, m: multiset<A>, y: A)
    requires y in m
    ensures FlatMap(f, m) == f(y) + FlatMap(f, m - multiset{y})
    decreases |m|
  {
    FlatMapStep(f, m);
    var x := Pick(m);
    if x != y {
      RemoveTwo(m, x, y);
      var rest := m - multiset{x} - multiset{y};
      FlatMapRemove(f, m - multiset{x}, y);
      FlatMapRemove(f, m - multiset{y}, x);
      SwapFirst(f(x), f(y), FlatMap(f, rest));
    }
  }

  lemma {:induction false} FlatMapSum<A, B>(f: A -> multiset<B>, a: multiset<A>, b: multiset<A>)
    ensures FlatMap(f, a + b) == FlatMap(f, a) + FlatMap(f, b)
    decreases |a|
  {
    FlatMapStep(f, a);
    if |a| == 0 {
      assert a + b == b;
    } else {
      var x := Pick(a);
      FlatMapRemove(f, a + b, x);
      assert (a + b) - multiset{x} == (a - multiset{x}) + b;
      FlatMapSum(f, a - multiset{x}, b);
    }
  }

  lemma {:induction false} FlatMapCong<A, B>(f: A -> multiset<B>, g: A -> multiset<B>, m: multiset<A>)
    requires forall x :: x in m ==> f(x) == g(x)
    ensures FlatMap(f, m) == FlatMap(g, m)
    decreases |m|
  {
    FlatMapStep(f, m);
    FlatMapStep(g, m);
    if |m| != 0 {
      FlatMapCong(f, g, m - multiset{Pick(m)});
    }
  }

  lemma {:induction false} FlatMapEmpty<A, B>(f: A -> multiset<B>, m: multiset<A>)
    requires forall x :: x in m ==> f(x) == multiset{}
    ensures FlatMap(f, m) == multiset{}
    decreases |m|
  {
    FlatMapStep(f, m);
    if |m| != 0 {
      FlatMapEmpty(f, m - multiset{Pick(m)});
    }
  }

  /** A function that yields one element each keeps the number of elements. */
  lemma {:induction false} FlatMapCount<A, B>(f: A -> multiset<B>, m: multiset<A>)
    requires forall x :: x in m ==> |f(x)| == 1
    ensures |FlatMap(f, m)| == |m|
    decreases |m|
  {
    FlatMapStep(f, m);
    if |m| != 0 {
      FlatMapCount(f, m - multiset{Pick(m)});
    }
  }

  lemma FlatMapSingle<A, B>(f: A -> multiset<B>, x: A)
    ensures FlatMap(f, multiset{x}) == f(x)
  {
    FlatMapStep(f, multiset{});
    FlatMapRemove(f, multiset{x}, x);
    assert multiset{x} - multiset{x} == multiset{};
  }

  lemma {:induction false} FlatMapIdentity<A>(f: A -> multiset<A>, m: multiset<A>)
    requires forall x :: x in m ==> f(x) == multiset{x}
    ensures FlatMap(f, m) == m
    decreases |m|
  {
    FlatMapStep(f, m);
    if |m| != 0 {
      FlatMapIdentity(f, m - multiset{Pick(m)});
    }
  }

  lemma {:induction false} FlatMapMember<A, B>(f: A -> multiset<B>, m: multiset<A>, y: B) returns (x: A)
    requires y in FlatMap(f, m)
    ensures x in m && y in f(x)
    decreases |m|
  {
    FlatMapStep(f, m);
    x := Pick(m);
    if y !in f(x) {
      x := FlatMapMember(f, m - multiset{x}, y);
    }
  }

  /** Everything in the result satisfies `p` when every image does. */
  lemma FlatMapAll<A, B(!new)>(f: A -> multiset<B>, m: multiset<A>, p: B -> bool)
    requires forall x, y :: x in m && y in f(x) ==> p(y)
    ensures forall y :: y in FlatMap(f, m) ==> p(y)
  {
    forall y | y in FlatMap(f, m)
      ensures p(y)
    {
      var x := FlatMapMember(f, m, y);
    }
  }

  lemma FlatMapAbsent<A, B>(f: A -> multiset<B>, m: multiset<A>, y: B)
    requires forall z :: z in m ==> y !in f(z)
    ensures y !in FlatMap(f, m)
  {
    if y in FlatMap(f, m) {
      var z := FlatMapMember(f, m, y);
    }
  }

  /** A point of the result that only `x` produces has multiplicity scaled by that of `x`. */
  lemma {:induction false} FlatMapPoint<A, B>(f: A -> multiset<B>, m: multiset<A>, x: A, y: B)
    requires forall z :: z in m && z != x ==> y !in f(z)
    ensures FlatMap(f, m)[y] == Times(m[x], f(x)[y])
    decreases m[x]
  {
    if x !in m {
      FlatMapAbsent(f, m, y);
    } else {
      var rest := m - multiset{x};
      assert rest[x] == m[x] - 1;
      assert FlatMap(f, m)[y] == f(x)[y] + FlatMap(f, rest)[y] by {
        FlatMapRemove(f, m, x);
      }
      FlatMapPoint(f, rest, x, y);
    }
  }

  /** Multiplication as repeated addition: the multiplicity of `n` occurrences of weight `k`. */
  ghost function Times(n: nat, k: nat): nat
  {
    if n == 0 then 0 else k + Times(n - 1, k)
  }

  lemma TimesIsProduct(n: nat, k: nat)
    ensures Times(n, k) == n * k
  {
  }

  /** `x => f(x) + g(x)` */
  ghost function Both<A, B>(f: A -> multiset<B>, g: A -> multiset<B>): A -> multiset<B>
  {
    x => f(x) + g(x)
  }

  lemma {:induction false} FlatMapBoth<A, B>(f: A -> multiset<B>, g: A -> multiset<B>, m: multiset<A>)
    ensures FlatMap(Both(f, g), m) == FlatMap(f, m) + FlatMap(g, m)
    decreases |m|
  {
    FlatMapStep(f, m);
    FlatMapStep(g, m);
    FlatMapStep(Both(f, g), m);
    if |m| != 0 {
      var x := Pick(m);
      FlatMapBoth(f, g, m - multiset{x});
      assert Both(f, g)(x) == f(x) + g(x);
    }
  }

  /** `x => FlatMap(g, f(x))` */
  ghost function After<A, B, C>(g: B -> multiset<C>, f: A -> multiset<B>): A -> multiset<C>
  {
    x => FlatMap(g, f(x))
  }

  lemma {:induction false} FlatMapFuse<A, B, C>(g: B -> multiset<C>, f: A -> multiset<B>, m: multiset<A>)
    ensures FlatMap(g, FlatMap(f, m)) == FlatMap(After(g, f), m)
    decreases |m|
  {
    FlatMapStep(f, m);
    FlatMapStep(After(g, f), m);
    FlatMapStep(g, multiset{});
    if |m| != 0 {
      var x := Pick(m);
      FlatMapSum(g, f(x), FlatMap(f, m - multiset{x}));
      FlatMapFuse(g, f, m - multiset{x});
      assert After(g, f)(x) == FlatMap(g, f(x));
    }
  }

  /** The pairs `(a, b)` of a fixed `a`, each replaced by `h(a, b)`. */
  ghost function Fixed<A, B, C>(h: (A, B) -> multiset<C>, a: A): B -> multiset<C>
  {
    b => h(a, b)
  }

  ghost function AcrossRight<A, B, C>(h: (A, B) -> multiset<C>, right: multiset<B>): A -> multiset<C>
  {
    a => FlatMap(Fixed(h, a), right)
  }

  /** Every pair of `left` and `right`, with multiplied multiplicity, replaced by `h`. */
  ghost function Cross<A, B, C>(h: (A, B) -> multiset<C>, left: multiset<A>, right: multiset<B>): multiset<C>
  {
    FlatMap(AcrossRight(h, right), left)
  }

  ghost function Flip<A, B, C>(h: (A, B) -> multiset<C>): (B, A) -> multiset<C>
  {
    (b, a) => h(a, b)
  }

  lemma CrossRemoveLeft<A, B, C>(h: (A, B) -> multiset<C>, left: multiset<A>, right: multiset<B>, a: A)
    requires a in left
    ensures Cross(h, left, right) == FlatMap(Fixed(h, a), right) + Cross(h, left - multiset{a}, right)
  {
    FlatMapRemove(AcrossRight(h, right), left, a);
  }

  lemma {:induction false} CrossRemoveRight<A, B, C>(h: (A, B) -> multiset<C>, left: multiset<A>, right: multiset<B>,
                                                     b: B)
    requires b in right
    ensures Cross(h, left, right) == FlatMap(Fixed(Flip(h), b), left) + Cross(h, left, right - multiset{b})
    decreases |left|
  {
    if |left| == 0 {
      FlatMapStep(AcrossRight(h, right), left);
      FlatMapStep(AcrossRight(h, right - multiset{b}), left);
      FlatMapStep(Fixed(Flip(h), b), left);
    }
    if |left| != 0 {
      var a := Pick(left);
      var less := left - multiset{a};
      CrossRemoveLeft(h, left, right, a);
      CrossRemoveLeft(h, left, right - multiset{b}, a);
      FlatMapRemove(Fixed(Flip(h), b), left, a);
      CrossRemoveRight(h, less, right, b);
      FlatMapRemove(Fixed(h, a), right, b);
      calc {
        Cross(h, left, right);
        FlatMap(Fixed(h, a), right) + Cross(h, less, right);
        (h(a, b) + FlatMap(Fixed(h, a), right - multiset{b}))
        + (FlatMap(Fixed(Flip(h), b), less) + Cross(h, less, right - multiset{b}));
        (h(a, b) + FlatMap(Fixed(Flip(h), b), less))
        + (FlatMap(Fixed(h, a), right - multiset{b}) + Cross(h, less, right - multiset{b}));
        FlatMap(Fixed(Flip(h), b), left) + Cross(h, left, right - multiset{b});
      }
    }
  }

  lemma {:induction false} CrossEmptyRight<A, B, C>(h: (A, B) -> multiset<C>, left: multiset<A>)
    ensures Cross(h, left, multiset{}) == multiset{}
  {
    forall a
      ensures AcrossRight(h, multiset{})(a) == multiset{}
    {
      FlatMapStep(Fixed(h, a), multiset{});
    }
    FlatMapEmpty(AcrossRight(h, multiset{}), left);
  }

  /** The order in which a pair is enumerated does not matter. */
  lemma {:induction false} CrossFlip<A, B, C>(h: (A, B) -> multiset<C>, left: multiset<A>, right: multiset<B>)
    ensures Cross(h, left, right) == Cross(Flip(h), right, left)
    decreases |right|
  {
    FlatMapStep(AcrossRight(Flip(h), left), right);
    if |right| == 0 {
      CrossEmptyRight(h, left);
    } else {
      var b := Pick(right);
      CrossRemoveRight(h, left, right, b);
      CrossFlip(h, left, right - multiset{b});
    }
  }

  lemma CrossCong<A, B, C>(h: (A, B) -> multiset<C>, k: (A, B) -> multiset<C>, left: multiset<A>, right: multiset<B>)
    requires forall a, b :: a in left && b in right ==> h(a, b) == k(a, b)
    ensures Cross(h, left, right) == Cross(k, left, right)
  {
    forall a | a in left
      ensures AcrossRight(h, right)(a) == AcrossRight(k, right)(a)
    {
      FlatMapCong(Fixed(h, a), Fixed(k, a), right);
    }
    FlatMapCong(AcrossRight(h, right), AcrossRight(k, right), left);
  }

  /** `(a, b) => FlatMap(g, h(a, b))` */
  ghost function AfterPair<A, B, C, D>(g: C -> multiset<D>, h: (A, B) -> multiset<C>): (A, B) -> multiset<D>
  {
    (a, b) => FlatMap(g, h(a, b))
  }

  lemma FlatMapCross<A, B, C, D>(g: C -> multiset<D>, h: (A, B) -> multiset<C>, left: multiset<A>, right: multiset<B>)
    ensures FlatMap(g, Cross(h, left, right)) == Cross(AfterPair(g, h), left, right)
  {
    FlatMapFuse(g, AcrossRight(h, right), left);
    forall a | a in left
      ensures After(g, AcrossRight(h, right))(a) == AcrossRight(AfterPair(g, h), right)(a)
    {
      FlatMapFuse(g, Fixed(h, a), right);
      FlatMapCong(After(g, Fixed(h, a)), Fixed(AfterPair(g, h), a), right);
    }
    FlatMapCong(After(g, AcrossRight(h, right)), AcrossRight(AfterPair(g, h), right), left);
  }
}
