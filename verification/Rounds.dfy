/** Page counts, rounds and their least common multiple. */
module Rounds {
  import opened Types

  /** Requests needed to reach the end of a listing: one, even for an empty listing. */
  function PageCount(len: nat, n: nat): (p: nat)
    requires n > 0
    ensures p > 0
  {
    if len <= n then 1 else 1 + PageCount(len - n, n)
  }

  type Counts = map<Kind, nat>

  ghost predicate CommonMultiple(m: nat, counts: Counts)
  {
    forall k :: k in counts ==> counts[k] > 0 && m % counts[k] == 0
  }

  ghost predicate LeastCommonMultiple(m: nat, counts: Counts)
  {
    && m > 0
    && CommonMultiple(m, counts)
    && forall m' :: 0 < m' < m ==> !CommonMultiple(m', counts)
  }

  function Min(a: int, b: int): int
  {
    if a <= b then a else b
  }

  lemma {:induction false} PageCountBounds(len: nat, n: nat, i: nat)
    requires n > 0 && i < PageCount(len, n)
    ensures i > 0 ==> i * n < len
    ensures i + 1 == PageCount(len, n) ==> len <= (i + 1) * n
    ensures i + 1 < PageCount(len, n) ==> (i + 1) * n < len
  {
    assert (i + 1) * n == i * n + n;
    if len > n && i > 0 {
      PageCountBounds(len - n, n, i - 1);
      assert (i - 1) * n == i * n - n;
    }
  }

  lemma MulMonotone(a: nat, b: nat, n: nat)
    requires a <= b
    ensures a * n <= b * n
  {
  }

  lemma MulStep(a: nat, b: nat, n: nat)
    requires a < b
    ensures a * n + n <= b * n
  {
    MulMonotone(a + 1, b, n);
    assert (a + 1) * n == a * n + n;
  }

  lemma DivModForm(x: nat, p: nat)
    requires p > 0
    ensures x == (x / p) * p + x % p
  {
  }

  lemma DivModUnique(x: nat, p: nat, q: nat, m: nat)
    requires p > 0 && m < p && x == q * p + m
    ensures x / p == q && x % p == m
  {
    var q', m' := x / p, x % p;
    assert x == q' * p + m';
    if q < q' {
      MulStep(q, q', p);
    } else if q' < q {
      MulStep(q', q, p);
    }
  }

  lemma Multiple(m: nat, p: nat)
    requires m > 0 && p > 0 && m % p == 0
    ensures m / p >= 1 && p <= m
    ensures m / p == 1 <==> m == p
  {
    DivModForm(m, p);
    if m / p >= 2 {
      MulMonotone(2, m / p, p);
    }
  }

  /** The least common multiple of the page counts is one of them just when all the others divide it. */
  lemma LcmIsOwnCount(m: nat, counts: Counts, k: Kind)
    requires LeastCommonMultiple(m, counts) && k in counts
    ensures counts[k] > 0 && m / counts[k] >= 1
    ensures m / counts[k] == 1 <==> CommonMultiple(counts[k], counts)
  {
    Multiple(m, counts[k]);
  }

  /** A common multiple of the page counts: the rounds cannot go on past it. */
  ghost function Bound(counts: Counts): nat
  {
    CountOf(counts, Working) * CountOf(counts, Episodic) * CountOf(counts, Semantic)
  }

  ghost function CountOf(counts: Counts, k: Kind): nat
  {
    if k in counts then counts[k] else 1
  }

  lemma BoundIsCommonMultiple(counts: Counts)
    requires forall k :: k in counts ==> counts[k] > 0
    ensures Bound(counts) > 0 && CommonMultiple(Bound(counts), counts)
  {
    ProductDivides(CountOf(counts, Working), CountOf(counts, Episodic), CountOf(counts, Semantic));
    forall k | k in counts
      ensures Bound(counts) % counts[k] == 0
    {
      match k
      case Working =>
      case Episodic =>
      case Semantic =>
    }
  }

  lemma ProductDivides(a: nat, b: nat, c: nat)
    requires a > 0 && b > 0 && c > 0
    ensures a * b * c > 0
    ensures a * b * c % a == 0 && a * b * c % b == 0 && a * b * c % c == 0
  {
    var ab, bc, ac := a * b, b * c, a * c;
    assert ab > 0 && ab * c > 0 by { MulMonotone(1, b, a); MulMonotone(1, ab, c); }
    assert ab * c == bc * a && ab * c == ac * b;
    DivModUnique(ab * c, c, ab, 0);
    DivModUnique(bc * a, a, bc, 0);
    DivModUnique(ac * b, b, ac, 0);
  }
}
