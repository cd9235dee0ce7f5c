/**
 cosine_similarity (rag/vector_store.py), over the reals.

 Square roots are taken as given: `norm` stands for the square root of a sum of squares wherever it
 satisfies IsNorm.  Products of two variables occur in small lemmas about numbers only.
 */
module CosineSimilarity {

  function Sum(p: seq<real>): real {
    if p == [] then 0.0 else Sum(p[..|p| - 1]) + p[|p| - 1]
  }

  function Times(k: real, x: real): real { k * x }

  /** `a * b for a, b in zip(v1, v2)` */
  function Products(a: seq<real>, b: seq<real>): (p: seq<real>)
    requires |a| == |b|
    ensures |p| == |a| && forall i :: 0 <= i < |a| ==> p[i] == Times(a[i], b[i])
  {
    seq(|a|, i requires 0 <= i < |a| => Times(a[i], b[i]))
  }

  function Dot(a: seq<real>, b: seq<real>): real
    requires |a| == |b|
  {
    Sum(Products(a, b))
  }

  predicate IsNorm(n: real, v: seq<real>) { n >= 0.0 && n * n == Dot(v, v) }

  /** cosine_similarity, given the norms of the two vectors. */
  function Cosine(a: seq<real>, b: seq<real>, na: real, nb: real): real {
    if a == [] || b == [] || |a| != |b| then 0.0
    else if na == 0.0 || nb == 0.0 then 0.0
    else Dot(a, b) / (na * nb)
  }

  /** The zip-and-sum loops of cosine_similarity. */
  method DotProduct(a: seq<real>, b: seq<real>) returns (sum: real)
    requires |a| == |b|
    ensures sum == Dot(a, b)
  {
    sum := 0.0;
    ghost var products := Products(a, b);
    for i := 0 to |a|
      invariant sum == Sum(products[..i])
    {
      var product := a[i] * b[i];
      assert products[i] == product;
      sum := sum + product;
      assert products[..i + 1][..i] == products[..i];
    }
    assert products[..|a|] == products;
  }

  // ---------------------------------------------------------------- numbers

  lemma {:induction false} ProductIsPositive(x: real, y: real)
    requires x > 0.0 && y > 0.0
    ensures x * y > 0.0
  {
  }

  lemma {:induction false} SignOfProduct(x: real, y: real, product: real)
    requires product == x * y
    ensures x > 0.0 && y > 0.0 ==> product > 0.0
    ensures x < 0.0 && y < 0.0 ==> product > 0.0
    ensures x == 0.0 ==> product == 0.0
  {
  }

  lemma {:induction false} SquareIsNonNegative(x: real, square: real)
    requires square == Times(x, x)
    ensures square >= 0.0 && (square == 0.0 <==> x == 0.0)
  {
    SignOfProduct(x, x, square);
  }

  lemma {:induction false} TimesAdds(t: real, x: real, y: real)
    ensures Times(t, x) + Times(t, y) == Times(t, x + y)
  {
  }

  lemma {:induction false} TimesAssociates(t: real, x: real, y: real)
    ensures Times(Times(t, x), y) == Times(t, Times(x, y))
  {
  }

  lemma {:induction false} TimesCommutes(x: real, y: real)
    ensures Times(x, y) == Times(y, x)
  {
  }

  lemma {:induction false} SignOfFactor(k: real, x: real, product: real)
    requires k > 0.0 && product == k * x
    ensures product >= 0.0 ==> x >= 0.0
    ensures product == 0.0 <==> x == 0.0
  {
  }

  lemma {:induction false} ScaledOrder(k: real, x: real, y: real, kx: real, ky: real)
    requires k > 0.0 && kx == k * x && ky == k * y
    ensures kx <= ky <==> x <= y
  {
    var d := y - x;
    var kd := k * d;
    assert kd == ky - kx;
    SignOfProduct(k, d, kd);
    SignOfProduct(k, -d, -kd);
  }

  // ---------------------------------------------------------------- sums

  lemma {:induction false} SumAdds(p: seq<real>, q: seq<real>, r: seq<real>)
    requires |p| == |q| == |r| && forall i :: 0 <= i < |r| ==> r[i] == p[i] + q[i]
    ensures Sum(r) == Sum(p) + Sum(q)
  {
    if r != [] {
      var n := |r| - 1;
      SumAdds(p[..n], q[..n], r[..n]);
    }
  }

  lemma {:induction false} SumScales(t: real, p: seq<real>, r: seq<real>)
    requires |p| == |r| && forall i :: 0 <= i < |r| ==> r[i] == Times(t, p[i])
    ensures Sum(r) == Times(t, Sum(p))
  {
    if r != [] {
      var n := |r| - 1;
      SumScales(t, p[..n], r[..n]);
      TimesAdds(t, Sum(p[..n]), p[n]);
    }
  }

  lemma {:induction false} SumIsNonNegative(p: seq<real>)
    requires forall i :: 0 <= i < |p| ==> p[i] >= 0.0
    ensures Sum(p) >= 0.0
    ensures Sum(p) == 0.0 <==> forall i :: 0 <= i < |p| ==> p[i] == 0.0
  {
    if p != [] {
      var n := |p| - 1;
      SumIsNonNegative(p[..n]);
      assert p == p[..n] + [p[n]];
    }
  }

  // ------------------------------------------------ the dot product is bilinear, symmetric and positive

  /** t times a vector, and the sum of two vectors. */
  function Scaled(t: real, v: seq<real>): (s: seq<real>)
    ensures |s| == |v| && forall i :: 0 <= i < |v| ==> s[i] == Times(t, v[i])
  {
    seq(|v|, i requires 0 <= i < |v| => Times(t, v[i]))
  }

  function Plus(u: seq<real>, v: seq<real>): (s: seq<real>)
    requires |u| == |v|
    ensures |s| == |u| && forall i :: 0 <= i < |u| ==> s[i] == u[i] + v[i]
  {
    seq(|u|, i requires 0 <= i < |u| => u[i] + v[i])
  }

  lemma {:induction false} DotCommutes(a: seq<real>, b: seq<real>)
    requires |a| == |b|
    ensures Dot(a, b) == Dot(b, a)
  {
    forall i | 0 <= i < |a|
      ensures Products(a, b)[i] == Products(b, a)[i]
    {
      TimesCommutes(a[i], b[i]);
    }
    assert Products(a, b) == Products(b, a);
  }

  lemma {:induction false} DotOfScaled(t: real, a: seq<real>, b: seq<real>)
    requires |a| == |b|
    ensures Dot(Scaled(t, a), b) == Times(t, Dot(a, b))
  {
    forall i | 0 <= i < |a|
      ensures Products(Scaled(t, a), b)[i] == Times(t, Products(a, b)[i])
    {
      TimesAssociates(t, a[i], b[i]);
    }
    SumScales(t, Products(a, b), Products(Scaled(t, a), b));
  }

  lemma {:induction false} DotOfSum(u: seq<real>, v: seq<real>, w: seq<real>)
    requires |u| == |v| == |w|
    ensures Dot(Plus(u, v), w) == Dot(u, w) + Dot(v, w)
  {
    forall i | 0 <= i < |u|
      ensures Products(Plus(u, v), w)[i] == Products(u, w)[i] + Products(v, w)[i]
    {
      SumTimes(u[i], v[i], w[i]);
    }
    SumAdds(Products(u, w), Products(v, w), Products(Plus(u, v), w));
  }

  lemma {:induction false} SumTimes(x: real, y: real, z: real)
    ensures Times(x + y, z) == Times(x, z) + Times(y, z)
  {
  }

  predicate AllZero(v: seq<real>) { forall i :: 0 <= i < |v| ==> v[i] == 0.0 }

  lemma {:induction false} DotIsPositive(v: seq<real>)
    ensures Dot(v, v) >= 0.0
    ensures Dot(v, v) == 0.0 <==> AllZero(v)
  {
    var squares := Products(v, v);
    forall i | 0 <= i < |v|
      ensures squares[i] >= 0.0 && (squares[i] == 0.0 <==> v[i] == 0.0)
    {
      SquareIsNonNegative(v[i], squares[i]);
    }
    SumIsNonNegative(squares);
  }

  // ---------------------------------------------------------------- the Cauchy-Schwarz inequality

  /** a - t * b, the gap that the inequality is read off from. */
  function Gap(a: seq<real>, b: seq<real>, t: real): (g: seq<real>)
    requires |a| == |b|
    ensures |g| == |a|
  {
    Plus(a, Scaled(-t, b))
  }

  lemma {:induction false} DotWithGap(a: seq<real>, b: seq<real>, t: real, w: seq<real>)
    requires |a| == |b| == |w|
    ensures Dot(Gap(a, b, t), w) == Dot(a, w) + Times(-t, Dot(b, w))
  {
    DotOfSum(a, Scaled(-t, b), w);
    DotOfScaled(-t, b, w);
  }

  /** The squared gap in terms of a.a, a.b and b.b. */
  function SquaredGap(aa: real, ab: real, bb: real, t: real): real {
    (aa + Times(-t, ab)) + Times(-t, ab + Times(-t, bb))
  }

  lemma {:induction false} GapSquared(a: seq<real>, b: seq<real>, t: real)
    requires |a| == |b|
    ensures Dot(Gap(a, b, t), Gap(a, b, t)) == SquaredGap(Dot(a, a), Dot(a, b), Dot(b, b), t)
  {
    var g := Gap(a, b, t);
    DotWithGap(a, b, t, g);
    DotCommutes(a, g);
    DotCommutes(b, g);
    DotCommutes(a, b);
    DotWithGap(a, b, t, a);
    DotWithGap(a, b, t, b);
    Combine(Dot(g, g), Dot(a, g), Dot(b, g), Dot(a, a), Dot(a, b), Dot(b, b), t);
  }

  lemma {:induction false} Combine(gg: real, ag: real, bg: real, aa: real, ab: real, bb: real, t: real)
    requires gg == ag + Times(-t, bg) && ag == aa + Times(-t, ab) && bg == ab + Times(-t, bb)
    ensures gg == SquaredGap(aa, ab, bb, t)
  {
  }

  lemma {:induction false} ZeroGap(x: real, y: real, t: real)
    ensures x + Times(-t, y) == 0.0 <==> x == Times(t, y)
  {
  }

  lemma {:induction false} NoGapIff(a: seq<real>, b: seq<real>, t: real)
    requires |a| == |b|
    ensures Dot(Gap(a, b, t), Gap(a, b, t)) == 0.0 <==> a == Scaled(t, b)
  {
    var g, s := Gap(a, b, t), Scaled(t, b);
    DotIsPositive(g);
    forall i | 0 <= i < |a|
      ensures g[i] == 0.0 <==> a[i] == s[i]
    {
      ZeroGap(a[i], b[i], t);
    }
    if AllZero(g) {
      assert forall i :: 0 <= i < |a| ==> a[i] == s[i];
    }
  }

  /** At t = na / nb the squared gap is a positive multiple of na * nb - d. */
  lemma {:induction false} GapAtRatio(na: real, nb: real, d: real, t: real)
    requires t * nb == na
    ensures SquaredGap(na * na, d, nb * nb, t) == 2.0 * t * (na * nb - d)
  {
    assert Times(-t, Times(-t, nb * nb)) == (t * nb) * (t * nb);
    TimesAdds(-t, d, Times(-t, nb * nb));
    assert 2.0 * t * (na * nb) == 2.0 * (t * nb) * na;
    assert 2.0 * t * (na * nb - d) == 2.0 * t * (na * nb) - 2.0 * t * d;
  }

  lemma {:induction false} RatioIsPositive(na: real, nb: real, t: real)
    requires na > 0.0 && nb > 0.0 && t == na / nb
    ensures t > 0.0 && t * nb == na
  {
    if t <= 0.0 {
      SignOfProduct(-t, nb, -t * nb);
      assert false;
    }
  }

  lemma {:induction false} SlackIsNonNegative(gap: real, na: real, nb: real, d: real, t: real)
    requires na > 0.0 && nb > 0.0 && t == na / nb
    requires gap == SquaredGap(na * na, d, nb * nb, t) && gap >= 0.0
    ensures d <= na * nb && (gap == 0.0 <==> d == na * nb)
  {
    RatioIsPositive(na, nb, t);
    GapAtRatio(na, nb, d, t);
    SignOfFactor(2.0 * t, na * nb - d, gap);
  }

  /** The product of the norms bounds the dot product; it is reached by positive multiples only. */
  lemma {:induction false} DotIsAtMost(a: seq<real>, b: seq<real>, na: real, nb: real)
    requires |a| == |b| && IsNorm(na, a) && IsNorm(nb, b) && na > 0.0 && nb > 0.0
    ensures Dot(a, b) <= na * nb
    ensures Dot(a, b) == na * nb <==> a == Scaled(na / nb, b)
  {
    var t := na / nb;
    GapSquared(a, b, t);
    NoGapIff(a, b, t);
    DotIsPositive(Gap(a, b, t));
    SlackIsNonNegative(Dot(Gap(a, b, t), Gap(a, b, t)), na, nb, Dot(a, b), t);
  }

  lemma {:induction false} ScaledSquared(t: real, a: seq<real>)
    ensures Dot(Scaled(t, a), Scaled(t, a)) == Times(t, Times(t, Dot(a, a)))
  {
    DotOfScaled(t, a, Scaled(t, a));
    DotCommutes(a, Scaled(t, a));
    DotOfScaled(t, a, a);
  }

  lemma {:induction false} SquareOfScaled(t: real, n: real, square: real)
    requires square == n * n
    ensures Times(t, n) * Times(t, n) == Times(t, Times(t, square))
  {
    assert Times(t, n) * Times(t, n) == t * (t * (n * n));
  }

  /** Scaling a vector by t >= 0 scales its norm; the opposite vector has the same norm. */
  lemma {:induction false} ScaledNorm(a: seq<real>, na: real, t: real)
    requires IsNorm(na, a)
    ensures t >= 0.0 ==> IsNorm(Times(t, na), Scaled(t, a))
    ensures t == -1.0 ==> IsNorm(na, Scaled(t, a))
  {
    ScaledSquared(t, a);
    SquareOfScaled(t, na, Dot(a, a));
    SignOfProduct(t, na, Times(t, na));
    if t == -1.0 { Opposite(Dot(a, a)); }
  }

  lemma {:induction false} Opposite(x: real)
    ensures Times(-1.0, Times(-1.0, x)) == x
  {
  }

  lemma {:induction false} DotIsAtLeast(a: seq<real>, b: seq<real>, na: real, nb: real)
    requires |a| == |b| && IsNorm(na, a) && IsNorm(nb, b) && na > 0.0 && nb > 0.0
    ensures -(na * nb) <= Dot(a, b)
  {
    ScaledNorm(a, na, -1.0);
    DotOfScaled(-1.0, a, b);
    DotIsAtMost(Scaled(-1.0, a), b, na, nb);
  }

  lemma {:induction false} QuotientIsBetween(d: real, p: real)
    requires p > 0.0 && -p <= d <= p
    ensures -1.0 <= d / p <= 1.0
    ensures d / p == 1.0 <==> d == p
  {
    var q := d / p;
    assert p * q == d;
    ScaledOrder(p, q, 1.0, d, p);
    ScaledOrder(p, -1.0, q, -p, d);
  }

  /** Cosine similarity lies in [-1, 1] (Cauchy-Schwarz), for vectors of any lengths. */
  lemma {:induction false} CosineIsBounded(a: seq<real>, b: seq<real>, na: real, nb: real)
    requires IsNorm(na, a) && IsNorm(nb, b)
    ensures -1.0 <= Cosine(a, b, na, nb) <= 1.0
  {
    if a != [] && |a| == |b| && na != 0.0 && nb != 0.0 {
      DotIsAtMost(a, b, na, nb);
      DotIsAtLeast(a, b, na, nb);
      ProductIsPositive(na, nb);
      QuotientIsBetween(Dot(a, b), na * nb);
    }
  }

  lemma {:induction false} EmptyHasNoNorm(n: real)
    requires IsNorm(n, [])
    ensures n == 0.0
  {
    assert Products([], []) == [];
    SignOfProduct(n, n, 0.0);
  }

  /** The similarity is 1 exactly when the query is the stored vector stretched to its own length. */
  lemma {:induction false} CosineIsOneIff(a: seq<real>, b: seq<real>, na: real, nb: real)
    requires |a| == |b| && IsNorm(na, a) && IsNorm(nb, b) && na > 0.0 && nb > 0.0
    ensures Cosine(a, b, na, nb) == 1.0 <==> a == Scaled(na / nb, b)
  {
    if a == [] {
      EmptyHasNoNorm(na);
      assert false;
    } else {
      DotIsAtMost(a, b, na, nb);
      DotIsAtLeast(a, b, na, nb);
      ProductIsPositive(na, nb);
      QuotientIsBetween(Dot(a, b), na * nb);
    }
  }

  /** Rescaling the query by a positive factor changes no similarity. */
  lemma {:induction false} CosineIgnoresLength(a: seq<real>, b: seq<real>, na: real, nb: real, t: real)
    requires IsNorm(na, a) && IsNorm(nb, b) && t > 0.0
    ensures IsNorm(Times(t, na), Scaled(t, a))
    ensures Cosine(Scaled(t, a), b, Times(t, na), nb) == Cosine(a, b, na, nb)
  {
    ScaledNorm(a, na, t);
    SignOfProduct(t, na, Times(t, na));
    if a != [] && |a| == |b| && na != 0.0 && nb != 0.0 {
      DotOfScaled(t, a, b);
      CancelFactor(t, Dot(a, b), na, nb);
    }
  }

  lemma {:induction false} CancelFactor(t: real, d: real, na: real, nb: real)
    requires t > 0.0 && na > 0.0 && nb > 0.0
    ensures na * nb > 0.0 && Times(t, na) * nb > 0.0 && Times(t, d) / (Times(t, na) * nb) == d / (na * nb)
  {
    var p := na * nb;
    SignOfProduct(na, nb, p);
    var tp := Times(t, na) * nb;
    assert tp == t * p;
    SignOfProduct(t, p, tp);
    QuotientsAgree(t, d, p, tp);
  }

  lemma {:induction false} QuotientsAgree(t: real, d: real, p: real, tp: real)
    requires t > 0.0 && p > 0.0 && tp > 0.0 && tp == t * p
    ensures Times(t, d) / tp == d / p
  {
    var q := d / p;
    assert q * p == d;
    assert q * tp == t * (q * p);
    assert Times(t, d) == q * tp;
  }

  // ---------------------------------------------------------------- every value

  function SquaredDistance(a: seq<real>, b: seq<real>): real
    requires |a| == |b|
  {
    if a == [] then 0.0
    else
      var n := |a| - 1;
      var d := a[n] - b[n];
      SquaredDistance(a[..n], b[..n]) + d * d
  }

  lemma {:induction false} DotOneMore(a: seq<real>, b: seq<real>, n: nat)
    requires |a| == |b| == n + 1
    ensures Dot(a, b) == Dot(a[..n], b[..n]) + Times(a[n], b[n])
  {
    assert Products(a, b)[..n] == Products(a[..n], b[..n]);
  }

  lemma {:induction false} SquareOfDifference(x: real, y: real, d: real)
    requires d == x - y
    ensures d * d == Times(x, x) + Times(y, y) - 2.0 * Times(x, y)
  {
  }

  lemma {:induction false} DistanceByDots(a: seq<real>, b: seq<real>)
    requires |a| == |b|
    ensures SquaredDistance(a, b) == Dot(a, a) + Dot(b, b) - 2.0 * Dot(a, b)
  {
    if a == [] {
      assert Products(a, b) == [] && Products(a, a) == [] && Products(b, b) == [];
    } else {
      var n := |a| - 1;
      DistanceByDots(a[..n], b[..n]);
      DotOneMore(a, b, n);
      DotOneMore(a, a, n);
      DotOneMore(b, b, n);
      SquareOfDifference(a[n], b[n], a[n] - b[n]);
    }
  }

  lemma {:induction false} QuotientTimes(d: real, p: real)
    requires p > 0.0
    ensures p * (d / p) == d
  {
  }

  /**
   The law of cosines: the similarity of two vectors of one length, none of them zero, is fixed by their lengths and
   by the distance between them, through all values from -1 to 1; in every other case it is 0.
   */
  lemma {:induction false} LawOfCosines(a: seq<real>, b: seq<real>, na: real, nb: real)
    requires IsNorm(na, a) && IsNorm(nb, b)
    ensures |a| == |b| && na > 0.0 && nb > 0.0 ==>
              SquaredDistance(a, b) == na * na + nb * nb - 2.0 * (na * nb * Cosine(a, b, na, nb))
    ensures |a| != |b| || a == [] || na == 0.0 || nb == 0.0 ==> Cosine(a, b, na, nb) == 0.0
  {
    if |a| == |b| && na > 0.0 && nb > 0.0 {
      DistanceByDots(a, b);
      if a == [] { EmptyHasNoNorm(na); }
      ProductIsPositive(na, nb);
      QuotientTimes(Dot(a, b), na * nb);
    }
  }
}
