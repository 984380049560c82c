/** How similarity and scores respond to their inputs, and their values at fixed inputs. */
module ScoreLaws {
  import opened Types
  import opened Tokens
  import opened Similarity

  // ----- Similarity -----

  lemma {:induction false} DotSymmetric(a: Vector, b: Vector)
    requires |a| == |b|
    ensures Dot(a, b) == Dot(b, a)
  {
    if a != [] {
      DotSymmetric(a[..|a| - 1], b[..|b| - 1]);
    }
  }

  /** The inner product is the sum of the products of all components. */
  lemma {:induction false} DotOfConcat(a: Vector, b: Vector, c: Vector, d: Vector)
    requires |a| == |b| && |c| == |d|
    ensures Dot(a + c, b + d) == Dot(a, b) + Dot(c, d)
    ensures |c| == 1 ==> Dot(c, d) == c[0] * d[0]
  {
    if c == [] {
      assert a + c == a && b + d == b;
    } else {
      var n := |c| - 1;
      DotOfConcat(a, b, c[..n], d[..n]);
      assert (a + c)[..|a| + n] == a + c[..n] && (b + d)[..|b| + n] == b + d[..n];
    }
  }

  function Times(k: real, a: Vector): (r: Vector)
    ensures |r| == |a| && forall i :: 0 <= i < |a| ==> r[i] == k * a[i]
  {
    seq(|a|, i requires 0 <= i < |a| => k * a[i])
  }

  lemma {:induction false} DotOfMultiple(k: real, a: Vector, b: Vector)
    requires |a| == |b|
    ensures Dot(Times(k, a), b) == k * Dot(a, b)
  {
    if a != [] {
      var n := |a| - 1;
      DotOfMultiple(k, a[..n], b[..n]);
      TimesPrefix(k, a, n);
      Distribute(k, Dot(a[..n], b[..n]), a[n], b[n]);
    }
  }

  lemma TimesPrefix(k: real, a: Vector, n: nat)
    requires n <= |a|
    ensures Times(k, a)[..n] == Times(k, a[..n])
  {
    forall i | 0 <= i < n
      ensures Times(k, a)[..n][i] == Times(k, a[..n])[i]
    {
      assert a[..n][i] == a[i];
    }
  }

  lemma Distribute(k: real, s: real, x: real, y: real)
    ensures k * s + (k * x) * y == k * (s + x * y)
  {
  }

  lemma NormOfMultiple(k: real, a: Vector)
    ensures Norm(Times(k, a)) == (k * k) * Norm(a)
  {
    DotOfMultiple(k, a, Times(k, a));
    DotSymmetric(a, Times(k, a));
    DotOfMultiple(k, a, a);
    Associate(k, Norm(a));
  }

  lemma Associate(k: real, n: real)
    ensures k * (k * n) == (k * k) * n
  {
  }

  /** Similarity does not depend on the order of its arguments. */
  lemma CosineSymmetric(a: Vector, b: Vector, sqrt: real -> real)
    ensures Cosine(a, b, sqrt) == Cosine(b, a, sqrt)
  {
    if |a| == |b| {
      DotSymmetric(a, b);
      hide Dot;
      assert sqrt(Norm(a)) * sqrt(Norm(b)) == sqrt(Norm(b)) * sqrt(Norm(a));
    }
  }

  function Abs(k: real): real
  {
    if k < 0.0 then -k else k
  }

  lemma RootsAgree(r: real, s: real)
    requires r >= 0.0 && s >= 0.0 && r * r == s * s
    ensures r == s
  {
    if r < s {
      SquareMonotone(r, s);
    } else if s < r {
      SquareMonotone(s, r);
    }
  }

  lemma RootOfMultiple(k: real, n: real, m: real, sqrt: real -> real)
    requires IsSqrt(sqrt) && n >= 0.0 && m == (k * k) * n
    ensures sqrt(m) == Abs(k) * sqrt(n)
  {
    var r := sqrt(n);
    assert r >= 0.0 && r * r == n;
    NonNegativeProduct(k, n);
    assert sqrt(m) >= 0.0 && sqrt(m) * sqrt(m) == m;
    hide IsSqrt;
    SquareOfProduct(k, r);
    RootsAgree(sqrt(m), Abs(k) * r);
  }

  lemma NonNegativeProduct(k: real, n: real)
    requires n >= 0.0
    ensures (k * k) * n >= 0.0
  {
    SquareNonNegative(k);
  }

  lemma SquareOfProduct(k: real, r: real)
    requires r >= 0.0
    ensures Abs(k) * r >= 0.0 && (Abs(k) * r) * (Abs(k) * r) == (k * k) * (r * r)
  {
  }

  lemma RatioOfMultiple(k: real, d: real, d': real, ra: real, ra': real, rb: real)
    requires k != 0.0 && ra > 0.0 && rb > 0.0 && d' == k * d && ra' == Abs(k) * ra
    ensures Ratio(d', ra', rb) == if k > 0.0 then Ratio(d, ra, rb) else -Ratio(d, ra, rb)
  {
    PositiveProduct(ra, rb);
    var r := ra * rb;
    assert ra' * rb == Abs(k) * r;
    PositiveProduct(Abs(k), r);
    var q := d / r;
    assert q * r == d;
    var s := if k > 0.0 then q else -q;
    assert s * (Abs(k) * r) == k * d by { SignedProduct(k, q, r); }
    DivideBack(s, Abs(k) * r, k * d);
  }

  lemma SignedProduct(k: real, q: real, r: real)
    ensures (if k > 0.0 then q else -q) * (Abs(k) * r) == k * (q * r)
  {
  }

  lemma DivideBack(s: real, m: real, n: real)
    requires m > 0.0 && s * m == n
    ensures n / m == s
  {
    var t := n / m;
    assert t * m == n;
    assert (t - s) * m == 0.0;
  }

  /** Stretching a vector leaves its similarities alone; turning it round turns their sign. */
  lemma CosineOfMultiple(k: real, a: Vector, b: Vector, sqrt: real -> real)
    requires IsSqrt(sqrt) && k != 0.0
    ensures Cosine(Times(k, a), b, sqrt) == if k > 0.0 then Cosine(a, b, sqrt) else -Cosine(a, b, sqrt)
  {
    var c := Times(k, a);
    NormOfMultiple(k, a);
    NonZeroMultiple(k, Norm(a));
    assert Norm(c) == 0.0 <==> Norm(a) == 0.0;
    if |a| != 0 && |a| == |b| && Norm(a) != 0.0 && Norm(b) != 0.0 {
      assert Cosine(a, b, sqrt) == Ratio(Dot(a, b), sqrt(Norm(a)), sqrt(Norm(b)));
      assert Cosine(c, b, sqrt) == Ratio(Dot(c, b), sqrt(Norm(c)), sqrt(Norm(b)));
      RatioFlips(k, a, b, sqrt);
    }
  }

  lemma RatioFlips(k: real, a: Vector, b: Vector, sqrt: real -> real)
    requires IsSqrt(sqrt) && k != 0.0 && |a| == |b| && Norm(a) != 0.0 && Norm(b) != 0.0
    ensures var c := Times(k, a);
            var r := Ratio(Dot(a, b), sqrt(Norm(a)), sqrt(Norm(b)));
            Ratio(Dot(c, b), sqrt(Norm(c)), sqrt(Norm(b))) == if k > 0.0 then r else -r
  {
    hide *;
    NormNonNegative(a);
    NormOfMultiple(k, a);
    DotOfMultiple(k, a, b);
    RootOfMultiple(k, Norm(a), Norm(Times(k, a)), sqrt);
    RootsArePositive(a, b, sqrt);
    RatioOfMultiple(k, Dot(a, b), Dot(Times(k, a), b), sqrt(Norm(a)), sqrt(Norm(Times(k, a))), sqrt(Norm(b)));
  }

  lemma RootsArePositive(a: Vector, b: Vector, sqrt: real -> real)
    requires IsSqrt(sqrt) && Norm(a) != 0.0 && Norm(b) != 0.0
    ensures sqrt(Norm(a)) > 0.0 && sqrt(Norm(b)) > 0.0
  {
    RootOfNorm(a, sqrt);
    RootOfNorm(b, sqrt);
  }

  lemma NonZeroMultiple(k: real, n: real)
    requires k != 0.0
    ensures (k * k) * n == 0.0 <==> n == 0.0
  {
    NonZeroProduct(k, n);
    NonZeroProduct(k, k * n);
    Associate(k, n);
  }

  lemma NonZeroProduct(k: real, n: real)
    requires k != 0.0
    ensures k * n == 0.0 <==> n == 0.0
  {
    if k * n == 0.0 {
      assert n == (k * n) / k;
    }
  }

  // ----- Values -----

  /** Recency: one for what is new or never ages, and the exponential of age over half-life otherwise. */
  lemma DecayValues(age: int, halfLife: int, exp: real -> real)
    ensures age <= 0 || halfLife <= 0 ==> TimeDecay(age, halfLife, exp) == 1.0
    ensures age > 0 && halfLife > 0 ==> TimeDecay(age, halfLife, exp) == exp(-(age as real) / (halfLife as real))
  {
  }

  /** A new working item that is not saved: 70% similarity and 30% keywords, times 0.8 to 1.2 by importance. */
  lemma WorkingScoreValues(query: string, qv: Vector, it: Item, iv: Vector, sc: Scoring)
    requires sc.now <= it.createdAt && !sc.saved(it)
    ensures var s := WorkingScore(query, qv, it, iv, sc);
            var base := 0.7 * Cosine(qv, iv, sc.sqrt) + 0.3 * KeywordFraction(query, it.content, sc.lower);
            && (it.importance == 0.0 ==> s == 0.8 * base)
            && (it.importance == 0.5 ==> s == base)
            && (it.importance == 1.0 ==> s == 1.2 * base)
  {
    hide Cosine, KeywordFraction;
  }

  /** A semantic item that is not saved: 70% similarity and 30% tags, times 0.8 to 1.2 by importance. */
  lemma SemanticScoreValues(tags: seq<string>, qv: Vector, it: Item, iv: Vector, sc: Scoring)
    requires !sc.saved(it)
    ensures var s := SemanticScore(tags, qv, it, iv, sc);
            var base := 0.7 * Cosine(qv, iv, sc.sqrt) + 0.3 * OverlapFraction(tags, it.tags, sc.lower);
            && (it.importance == 0.0 ==> s == 0.8 * base)
            && (it.importance == 0.5 ==> s == base)
            && (it.importance == 1.0 ==> s == 1.2 * base)
  {
    hide Cosine, OverlapFraction;
  }

  /** An episodic item that is not saved: 80% similarity and 20% recency, times 0.8 to 1.2 by importance. */
  lemma EpisodicScoreValues(qv: Vector, it: Item, iv: Vector, sc: Scoring)
    requires !sc.saved(it)
    ensures var s := EpisodicScore(qv, it, iv, sc);
            var base := 0.8 * Cosine(qv, iv, sc.sqrt) + 0.2 * TimeDecay(sc.now - it.createdAt, sc.halfLife, sc.exp);
            && (it.importance == 0.0 ==> s == 0.8 * base)
            && (it.importance == 0.5 ==> s == base)
            && (it.importance == 1.0 ==> s == 1.2 * base)
  {
    hide Cosine, TimeDecay;
  }

  /** Saving an item multiplies its score by the boost; a boost that is not positive changes nothing. */
  lemma SavedItemsAreBoosted(query: string, tags: seq<string>, qv: Vector, it: Item, iv: Vector, sc: Scoring)
    requires sc.saved(it)
    ensures var b := if sc.boost > 0.0 then sc.boost else 1.0;
            var plain := sc.(saved := _ => false);
            && WorkingScore(query, qv, it, iv, sc) == WorkingScore(query, qv, it, iv, plain) * b
            && SemanticScore(tags, qv, it, iv, sc) == SemanticScore(tags, qv, it, iv, plain) * b
            && EpisodicScore(qv, it, iv, sc) == EpisodicScore(qv, it, iv, plain) * b
  {
    hide Cosine, KeywordFraction, OverlapFraction, TimeDecay;
  }

  /** A working item's score fades as a whole with its age. */
  lemma WorkingScoreFades(query: string, qv: Vector, it: Item, iv: Vector, sc: Scoring)
    requires sc.saved(it) == sc.saved(it.(createdAt := sc.now))
    ensures WorkingScore(query, qv, it, iv, sc) ==
            WorkingScore(query, qv, it.(createdAt := sc.now), iv, sc)
            * TimeDecay(sc.now - it.createdAt, sc.halfLife, sc.exp)
  {
    var decay := TimeDecay(sc.now - it.createdAt, sc.halfLife, sc.exp);
    DecayValues(0, sc.halfLife, sc.exp);
    hide Cosine, KeywordFraction, TimeDecay;
    var vec, kw := Cosine(qv, iv, sc.sqrt), KeywordFraction(query, it.content, sc.lower);
    FactorOut(vec * 0.7 + kw * 0.3, decay, ImportanceMultiplier(it.importance), SavedBoost(sc.saved(it), sc.boost));
  }

  lemma FactorOut(b: real, d: real, m: real, s: real)
    ensures b * d * m * s == b * 1.0 * m * s * d
  {
  }

  // ----- Growth -----

  lemma WeightedGrows(base: real, base': real, it: Item, sc: Scoring)
    requires base <= base' && it.importance >= 0.0
    ensures Weighted(base, it, sc) <= Weighted(base', it, sc)
  {
    var m, b := ImportanceMultiplier(it.importance), SavedBoost(sc.saved(it), sc.boost);
    ProductMonotone(base, base', m);
    ProductMonotone(base * m, base' * m, b);
  }

  lemma DecayedGrows(vec: real, vec': real, kw: real, decay: real)
    requires vec <= vec' && decay >= 0.0
    ensures Decayed(vec, kw, decay) <= Decayed(vec', kw, decay)
  {
    ProductMonotone(vec * 0.7 + kw * 0.3, vec' * 0.7 + kw * 0.3, decay);
  }

  /** The more similar the vectors, the higher every tier's score. */
  lemma ScoresGrowWithSimilarity(query: string, tags: seq<string>, qv: Vector, it: Item, iv: Vector, iv': Vector,
                                 sc: Scoring)
    requires IsScoring(sc) && it.importance >= 0.0 && Cosine(qv, iv, sc.sqrt) <= Cosine(qv, iv', sc.sqrt)
    ensures WorkingScore(query, qv, it, iv, sc) <= WorkingScore(query, qv, it, iv', sc)
    ensures SemanticScore(tags, qv, it, iv, sc) <= SemanticScore(tags, qv, it, iv', sc)
    ensures EpisodicScore(qv, it, iv, sc) <= EpisodicScore(qv, it, iv', sc)
  {
    var vec, vec' := Cosine(qv, iv, sc.sqrt), Cosine(qv, iv', sc.sqrt);
    var kw, tag := KeywordFraction(query, it.content, sc.lower), OverlapFraction(tags, it.tags, sc.lower);
    var decay := TimeDecay(sc.now - it.createdAt, sc.halfLife, sc.exp);
    DecayBounded(sc.now - it.createdAt, sc.halfLife, sc.exp);
    hide Cosine, KeywordFraction, OverlapFraction, TimeDecay, Weighted, Decayed, IsScoring;
    DecayedGrows(vec, vec', kw, decay);
    WeightedGrows(Decayed(vec, kw, decay), Decayed(vec', kw, decay), it, sc);
    WeightedGrows(vec * 0.7 + tag * 0.3, vec' * 0.7 + tag * 0.3, it, sc);
    WeightedGrows(vec * 0.8 + decay * 0.2, vec' * 0.8 + decay * 0.2, it, sc);
  }

  lemma WeightedByImportance(base: real, it: Item, it': Item, sc: Scoring)
    requires it.importance < it'.importance && sc.saved(it) == sc.saved(it')
    ensures Weighted(base, it, sc) <= Weighted(base, it', sc) <==> base >= 0.0
  {
    var b, step := SavedBoost(sc.saved(it), sc.boost), (it'.importance - it.importance) * 0.4;
    assert b > 0.0 && step > 0.0;
    assert Weighted(base, it', sc) - Weighted(base, it, sc) == base * (step * b) by {
      StepOf(base, it.importance, it'.importance, b);
    }
    PositiveProduct(step, b);
    SignOfProduct(base, step * b);
  }

  lemma StepOf(base: real, imp: real, imp': real, b: real)
    ensures base * (0.8 + imp' * 0.4) * b - base * (0.8 + imp * 0.4) * b == base * (((imp' - imp) * 0.4) * b)
  {
  }

  lemma SignOfProduct(x: real, y: real)
    requires y > 0.0
    ensures x * y >= 0.0 <==> x >= 0.0
  {
    if x < 0.0 {
      PositiveProduct(-x, y);
    }
  }

  /** The more important item scores at least as high exactly when the rest of the formula is not negative. */
  lemma ScoresGrowWithImportance(query: string, tags: seq<string>, qv: Vector, it: Item, imp: real, iv: Vector,
                                 sc: Scoring)
    requires it.importance < imp && sc.saved(it) == sc.saved(it.(importance := imp))
    ensures var it' := it.(importance := imp);
            var vec, kw := Cosine(qv, iv, sc.sqrt), KeywordFraction(query, it.content, sc.lower);
            var tag := OverlapFraction(tags, it.tags, sc.lower);
            var decay := TimeDecay(sc.now - it.createdAt, sc.halfLife, sc.exp);
            && (WorkingScore(query, qv, it, iv, sc) <= WorkingScore(query, qv, it', iv, sc) <==>
                (0.7 * vec + 0.3 * kw) * decay >= 0.0)
            && (SemanticScore(tags, qv, it, iv, sc) <= SemanticScore(tags, qv, it', iv, sc) <==>
                0.7 * vec + 0.3 * tag >= 0.0)
            && (EpisodicScore(qv, it, iv, sc) <= EpisodicScore(qv, it', iv, sc) <==>
                0.8 * vec + 0.2 * decay >= 0.0)
  {
    var it' := it.(importance := imp);
    var vec, kw := Cosine(qv, iv, sc.sqrt), KeywordFraction(query, it.content, sc.lower);
    var tag := OverlapFraction(tags, it.tags, sc.lower);
    var decay := TimeDecay(sc.now - it.createdAt, sc.halfLife, sc.exp);
    hide Cosine, KeywordFraction, OverlapFraction, TimeDecay, Weighted;
    WeightedByImportance(Decayed(vec, kw, decay), it, it', sc);
    WeightedByImportance(vec * 0.7 + tag * 0.3, it, it', sc);
    WeightedByImportance(vec * 0.8 + decay * 0.2, it, it', sc);
  }
}
