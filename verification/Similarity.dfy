/** Vector similarity and the tiers' score formulas, over the reals (memory/engine_scored_store.go). */
module Similarity {
  import opened Types
  import opened Tokens

  function Dot(a: Vector, b: Vector): real
    requires |a| == |b|
  {
    if a == [] then 0.0 else Dot(a[..|a| - 1], b[..|b| - 1]) + a[|a| - 1] * b[|b| - 1]
  }

  function Norm(a: Vector): real
  {
    Dot(a, a)
  }

  /** The square root function: non-negative, and squaring undoes it. */
  ghost predicate IsSqrt(sqrt: real -> real)
  {
    forall x: real :: x >= 0.0 ==> sqrt(x) >= 0.0 && sqrt(x) * sqrt(x) == x
  }

  // ----- Cauchy-Schwarz -----

  lemma {:induction false} NormNonNegative(a: Vector)
    ensures Norm(a) >= 0.0
  {
    if a != [] {
      NormNonNegative(a[..|a| - 1]);
      SquareNonNegative(a[|a| - 1]);
    }
  }

  lemma SquareNonNegative(x: real)
    ensures x * x >= 0.0
  {
  }

  /** If u, v are non-negative and w squared is at most u v, then 2 w is at most u + v. */
  lemma MeanBound(u: real, v: real, w: real)
    requires u >= 0.0 && v >= 0.0 && w * w <= u * v
    ensures 2.0 * w <= u + v
  {
    SquareNonNegative(u - v);
    assert (u - v) * (u - v) == u * u - 2.0 * (u * v) + v * v;
    assert (u + v) * (u + v) == u * u + 2.0 * (u * v) + v * v;
    assert (2.0 * w) * (2.0 * w) == 4.0 * (w * w);
    if 2.0 * w > u + v {
      SquareMonotone(u + v, 2.0 * w);
    }
  }

  lemma SquareMonotone(a: real, b: real)
    requires 0.0 <= a < b
    ensures a * a < b * b
  {
    assert b * b - a * a == (b - a) * (b + a);
    PositiveProduct(b - a, b + a);
  }

  lemma PositiveProduct(x: real, y: real)
    requires x > 0.0 && y > 0.0
    ensures x * y > 0.0
  {
  }

  lemma ProductMonotone(a: real, b: real, c: real)
    requires a <= b && c >= 0.0
    ensures a * c <= b * c
  {
    assert b * c - a * c == (b - a) * c;
  }

  lemma CrossTerm(d: real, p: real, q: real, x: real, y: real)
    requires p >= 0.0 && q >= 0.0 && d * d <= p * q
    ensures 2.0 * (d * (x * y)) <= p * (y * y) + q * (x * x)
  {
    SquareNonNegative(x);
    SquareNonNegative(y);
    var u, v, w := p * (y * y), q * (x * x), d * (x * y);
    var xy2 := (x * x) * (y * y);
    assert xy2 >= 0.0;
    assert w * w == (d * d) * xy2;
    assert u * v == (p * q) * xy2;
    ProductMonotone(d * d, p * q, xy2);
    assert u >= 0.0 && v >= 0.0;
    MeanBound(u, v, w);
  }

  /** The accumulators of the loop always satisfy dot^2 <= normA * normB. */
  lemma {:induction false} CauchySchwarz(a: Vector, b: Vector)
    requires |a| == |b|
    ensures Dot(a, b) * Dot(a, b) <= Norm(a) * Norm(b)
  {
    if a != [] {
      var a', b', x, y := a[..|a| - 1], b[..|b| - 1], a[|a| - 1], b[|b| - 1];
      CauchySchwarz(a', b');
      NormNonNegative(a');
      NormNonNegative(b');
      OneMore(Dot(a', b'), Norm(a'), Norm(b'), x, y);
    }
  }

  lemma OneMore(d: real, p: real, q: real, x: real, y: real)
    requires p >= 0.0 && q >= 0.0 && d * d <= p * q
    ensures (d + x * y) * (d + x * y) <= (p + x * x) * (q + y * y)
  {
    CrossTerm(d, p, q, x, y);
    var xy := x * y;
    assert (d + xy) * (d + xy) == d * d + 2.0 * (d * xy) + xy * xy;
    assert (p + x * x) * (q + y * y) == p * q + (p * (y * y) + q * (x * x)) + (x * x) * (y * y);
    assert xy * xy == (x * x) * (y * y);
  }

  // ----- Cosine similarity -----

  /** The quotient the source computes from the accumulators' roots. */
  function Ratio(d: real, ra: real, rb: real): real
  {
    if ra * rb == 0.0 then 0.0 else d / (ra * rb)
  }

  ghost function Cosine(a: Vector, b: Vector, sqrt: real -> real): real
  {
    if |a| == 0 || |a| != |b| || Norm(a) == 0.0 || Norm(b) == 0.0 then 0.0
    else Ratio(Dot(a, b), sqrt(Norm(a)), sqrt(Norm(b)))
  }

  predicate IsRoot(r: real, p: real)
  {
    r > 0.0 && r * r == p
  }

  predicate SquareBelow(d: real, p: real, q: real)
  {
    d * d <= p * q
  }

  lemma RootOfNorm(a: Vector, sqrt: real -> real)
    requires IsSqrt(sqrt) && Norm(a) != 0.0
    ensures IsRoot(sqrt(Norm(a)), Norm(a))
  {
    NormNonNegative(a);
    var r := sqrt(Norm(a));
    assert r * r == Norm(a) && r >= 0.0;
  }

  lemma DotBelowNorms(a: Vector, b: Vector)
    requires |a| == |b|
    ensures SquareBelow(Dot(a, b), Norm(a), Norm(b))
  {
    CauchySchwarz(a, b);
  }

  /** Similarity lies between -1 and 1. */
  lemma CosineBounded(a: Vector, b: Vector, sqrt: real -> real)
    requires IsSqrt(sqrt)
    ensures -1.0 <= Cosine(a, b, sqrt) <= 1.0
  {
    hide Dot, Norm, IsSqrt, IsRoot, SquareBelow, Ratio;
    if |a| != 0 && |a| == |b| && Norm(a) != 0.0 && Norm(b) != 0.0 {
      RootOfNorm(a, sqrt);
      RootOfNorm(b, sqrt);
      DotBelowNorms(a, b);
      RatioBounded(Dot(a, b), sqrt(Norm(a)), sqrt(Norm(b)), Norm(a), Norm(b));
    }
  }

  lemma RatioBounded(d: real, ra: real, rb: real, p: real, q: real)
    requires IsRoot(ra, p) && IsRoot(rb, q) && SquareBelow(d, p, q)
    ensures -1.0 <= Ratio(d, ra, rb) <= 1.0
  {
    var r := ra * rb;
    PositiveProduct(ra, rb);
    assert r * r == p * q;
    if d > r {
      SquareMonotone(r, d);
    }
    assert (-d) * (-d) == d * d;
    if -d > r {
      SquareMonotone(r, -d);
    }
    Quotient(d, r);
  }

  lemma Quotient(d: real, r: real)
    requires r > 0.0 && -r <= d <= r
    ensures -1.0 <= d / r <= 1.0
  {
    var t := d / r;
    assert t * r == d;
    assert (t - 1.0) * r == d - r && (-1.0 - t) * r == -r - d;
    if t > 1.0 {
      PositiveProduct(t - 1.0, r);
    } else if t < -1.0 {
      PositiveProduct(-1.0 - t, r);
    }
  }

  /** A non-zero vector is as similar to itself as can be. */
  lemma SelfSimilarity(a: Vector, sqrt: real -> real)
    requires IsSqrt(sqrt) && Norm(a) != 0.0
    ensures Cosine(a, a, sqrt) == 1.0
  {
    RootOfNorm(a, sqrt);
    assert |a| != 0 && Norm(a) == Dot(a, a);
    hide Dot, Norm, IsSqrt, IsRoot, Ratio;
    SelfRatio(Dot(a, a), sqrt(Norm(a)));
  }

  lemma SelfRatio(n: real, r: real)
    requires IsRoot(r, n) && n != 0.0
    ensures Ratio(n, r, r) == 1.0
  {
    SelfQuotient(n);
  }

  lemma SelfQuotient(n: real)
    requires n != 0.0
    ensures n / n == 1.0
  {
    var t := n / n;
    assert t * n == n;
    assert (t - 1.0) * n == 0.0;
  }

  /** The accumulator loop. */
  method Accumulate(a: Vector, b: Vector) returns (dot: real, normA: real, normB: real)
    requires |a| == |b|
    ensures dot == Dot(a, b) && normA == Norm(a) && normB == Norm(b)
  {
    dot, normA, normB := 0.0, 0.0, 0.0;
    for i := 0 to |a|
      invariant dot == Dot(a[..i], b[..i]) && normA == Norm(a[..i]) && normB == Norm(b[..i])
    {
      assert a[..i + 1][..i] == a[..i] && b[..i + 1][..i] == b[..i];
      dot := dot + a[i] * b[i];
      normA := normA + a[i] * a[i];
      normB := normB + b[i] * b[i];
    }
    assert a[..|a|] == a && b[..|a|] == b;
  }

  method VectorCosineSimilarity(a: Vector, b: Vector, sqrt: real -> real) returns (s: real)
    requires IsSqrt(sqrt)
    ensures s == Cosine(a, b, sqrt) && -1.0 <= s <= 1.0
  {
    CosineBounded(a, b, sqrt);
    if |a| == 0 || |a| != |b| {
      return 0.0;
    }
    var dot, normA, normB := Accumulate(a, b);
    if normA == 0.0 || normB == 0.0 {
      return 0.0;
    }
    RootOfNorm(a, sqrt);
    RootOfNorm(b, sqrt);
    hide Dot, Norm, IsSqrt;
    PositiveProduct(sqrt(normA), sqrt(normB));
    s := dot / (sqrt(normA) * sqrt(normB));
  }

  // ----- Score formulas -----

  function ImportanceMultiplier(imp: real): real
  {
    0.8 + imp * 0.4
  }

  function SavedBoost(saved: bool, boost: real): real
  {
    var b := if boost <= 0.0 then 1.0 else boost;
    if saved then b else 1.0
  }

  function MaxBoost(boost: real): real
  {
    if boost > 1.0 then boost else 1.0
  }

  /** Exponential decay: between 0 and 1 for negative exponents. */
  ghost predicate IsDecay(exp: real -> real)
  {
    forall x: real :: x <= 0.0 ==> 0.0 <= exp(x) <= 1.0
  }

  function TimeDecay(age: int, halfLife: int, exp: real -> real): real
  {
    if age <= 0 || halfLife <= 0 then 1.0 else exp(-(age as real) / (halfLife as real))
  }

  /** What a tier's score depends on besides the query and the item. */
  datatype Scoring = Scoring(
    now: Time,
    halfLife: int,
    boost: real,
    saved: Item -> bool,
    sqrt: real -> real,
    exp: real -> real,
    lower: string -> string)

  ghost predicate IsScoring(sc: Scoring)
  {
    IsSqrt(sc.sqrt) && IsDecay(sc.exp)
  }

  /** The factors common to all tiers. */
  function Weighted(base: real, it: Item, sc: Scoring): real
  {
    base * ImportanceMultiplier(it.importance) * SavedBoost(sc.saved(it), sc.boost)
  }

  function Decayed(vec: real, kw: real, decay: real): real
  {
    (vec * 0.7 + kw * 0.3) * decay
  }

  ghost function WorkingScore(query: string, qv: Vector, it: Item, iv: Vector, sc: Scoring): real
  {
    var vec, kw := Cosine(qv, iv, sc.sqrt), KeywordFraction(query, it.content, sc.lower);
    Weighted(Decayed(vec, kw, TimeDecay(sc.now - it.createdAt, sc.halfLife, sc.exp)), it, sc)
  }

  ghost function SemanticScore(tags: seq<string>, qv: Vector, it: Item, iv: Vector, sc: Scoring): real
  {
    Weighted(Cosine(qv, iv, sc.sqrt) * 0.7 + OverlapFraction(tags, it.tags, sc.lower) * 0.3, it, sc)
  }

  ghost function EpisodicScore(qv: Vector, it: Item, iv: Vector, sc: Scoring): real
  {
    Weighted(Cosine(qv, iv, sc.sqrt) * 0.8 + TimeDecay(sc.now - it.createdAt, sc.halfLife, sc.exp) * 0.2, it, sc)
  }

  lemma DecayBounded(age: int, halfLife: int, exp: real -> real)
    requires IsDecay(exp)
    ensures 0.0 <= TimeDecay(age, halfLife, exp) <= 1.0
  {
    if age > 0 && halfLife > 0 {
      var x := -(age as real) / (halfLife as real);
      assert x * (halfLife as real) == -(age as real);
      assert x <= 0.0;
    }
  }

  /** Scaling a value between lo <= 0 and hi >= 0 by a factor between 0 and `top`. */
  lemma Scaled(x: real, lo: real, hi: real, m: real, top: real)
    requires lo <= x <= hi && lo <= 0.0 <= hi && 0.0 <= m <= top
    ensures lo * top <= x * m <= hi * top
  {
    ProductMonotone(x, hi, m);
    ProductMonotone(lo, x, m);
    ProductMonotone(m, top, hi);
    ProductMonotone(m, top, -lo);
    assert m * (-lo) == -(lo * m) && top * (-lo) == -(lo * top);
  }

  lemma WeightedBounded(base: real, lo: real, it: Item, sc: Scoring)
    requires lo <= base <= 1.0 && lo <= 0.0 && 0.0 <= it.importance <= 1.0
    ensures lo * 1.2 * MaxBoost(sc.boost) <= Weighted(base, it, sc) <= 1.2 * MaxBoost(sc.boost)
  {
    Scaled(base, lo, 1.0, ImportanceMultiplier(it.importance), 1.2);
    Scaled(base * ImportanceMultiplier(it.importance), lo * 1.2, 1.2,
           SavedBoost(sc.saved(it), sc.boost), MaxBoost(sc.boost));
  }

  /** Working scores lie in [-0.84 B, 1.2 B], whatever the query, the vectors and the contents. */
  lemma WorkingScoreBounded(query: string, qv: Vector, it: Item, iv: Vector, sc: Scoring)
    requires IsScoring(sc) && 0.0 <= it.importance <= 1.0
    ensures -0.84 * MaxBoost(sc.boost) <= WorkingScore(query, qv, it, iv, sc) <= 1.2 * MaxBoost(sc.boost)
  {
    CosineBounded(qv, iv, sc.sqrt);
    DecayBounded(sc.now - it.createdAt, sc.halfLife, sc.exp);
    hide Cosine, KeywordFraction, TimeDecay, Weighted, MaxBoost, Decayed;
    var vec, kw := Cosine(qv, iv, sc.sqrt), KeywordFraction(query, it.content, sc.lower);
    var decay := TimeDecay(sc.now - it.createdAt, sc.halfLife, sc.exp);
    DecayedBounded(vec, kw, decay);
    WeightedBounded(Decayed(vec, kw, decay), -0.7, it, sc);
  }

  lemma DecayedBounded(vec: real, kw: real, decay: real)
    requires -1.0 <= vec <= 1.0 && 0.0 <= kw <= 1.0 && 0.0 <= decay <= 1.0
    ensures -0.7 <= Decayed(vec, kw, decay) <= 1.0
  {
    Scaled(vec * 0.7 + kw * 0.3, -0.7, 1.0, decay, 1.0);
  }

  lemma SemanticScoreBounded(tags: seq<string>, qv: Vector, it: Item, iv: Vector, sc: Scoring)
    requires IsScoring(sc) && 0.0 <= it.importance <= 1.0
    ensures -0.84 * MaxBoost(sc.boost) <= SemanticScore(tags, qv, it, iv, sc) <= 1.2 * MaxBoost(sc.boost)
  {
    CosineBounded(qv, iv, sc.sqrt);
    hide Cosine, OverlapFraction, Weighted, MaxBoost;
    WeightedBounded(Cosine(qv, iv, sc.sqrt) * 0.7 + OverlapFraction(tags, it.tags, sc.lower) * 0.3, -0.7, it, sc);
  }

  lemma EpisodicScoreBounded(qv: Vector, it: Item, iv: Vector, sc: Scoring)
    requires IsScoring(sc) && 0.0 <= it.importance <= 1.0
    ensures -0.96 * MaxBoost(sc.boost) <= EpisodicScore(qv, it, iv, sc) <= 1.2 * MaxBoost(sc.boost)
  {
    CosineBounded(qv, iv, sc.sqrt);
    DecayBounded(sc.now - it.createdAt, sc.halfLife, sc.exp);
    hide Cosine, TimeDecay, Weighted, MaxBoost;
    WeightedBounded(Cosine(qv, iv, sc.sqrt) * 0.8 + TimeDecay(sc.now - it.createdAt, sc.halfLife, sc.exp) * 0.2,
                    -0.8, it, sc);
  }
}
