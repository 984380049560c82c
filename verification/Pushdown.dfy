/**
 * Asking each tier for its best few and merging those loses nothing, provided every
 * tier is asked for at least as many as are wanted in the end.
 */
module Pushdown {
  import opened Types
  import opened Ordering
  import opened Rounds
  import opened Merge
  import opened Recall
  import opened RecallProofs

  predicate Better(a: SearchResult, b: SearchResult)
  {
    a.score > b.score
  }

  /** `cut` is the first `b` entries of a list sorted by descending score, with any order among ties. */
  ghost predicate IsCut(cut: seq<SearchResult>, full: seq<SearchResult>, b: nat)
  {
    exists s :: Permutation(s, full) && Sorted(s, Better) && cut == Shorter(b, s)
  }

  /** Every tier answered with a cut, to its own budget, of its full list; no tier repeats a key. */
  ghost predicate CutAnswers(cut: Answers, full: Answers, budgets: map<Kind, nat>, topK: nat)
  {
    && cut.Keys == full.Keys && full.Keys <= budgets.Keys
    && forall k :: k in full ==> CutAnswer(cut[k], full[k], budgets[k], topK)
  }

  ghost predicate CutAnswer(cut: seq<SearchResult>, full: seq<SearchResult>, b: nat, topK: nat)
  {
    b >= topK && DistinctKeys(full) && IsCut(cut, full, b)
  }

  lemma CutFacts(cut: seq<SearchResult>, full: seq<SearchResult>, b: nat)
    requires IsCut(cut, full, b) && DistinctKeys(full)
    ensures DistinctKeys(cut)
    ensures forall x :: x in cut ==> x in full
    ensures forall x, y :: x in full && x !in cut && y in cut ==> |cut| == b && y.score >= x.score
    ensures forall x :: x in full && x !in cut ==> |cut| == b
  {
    var s :| Permutation(s, full) && Sorted(s, Better) && cut == Shorter(b, s);
    SameElements(s, full);
    assert Distinct(full);
    DistinctPermutation(full, s);
    forall i, j | 0 <= i < j < |s|
      ensures KeyOf(s[i]) != KeyOf(s[j])
    {
      assert s[i] in full && s[j] in full;
      var i' :| 0 <= i' < |full| && full[i'] == s[i];
      var j' :| 0 <= j' < |full| && full[j'] == s[j];
    }
    forall x, y | x in full && x !in cut && y in cut
      ensures y.score >= x.score
    {
      DroppedIsWorse(s, b, x, y);
    }
  }

  lemma DroppedIsWorse(s: seq<SearchResult>, b: nat, x: SearchResult, y: SearchResult)
    requires Sorted(s, Better) && x in s && x !in Shorter(b, s) && y in Shorter(b, s)
    ensures y.score >= x.score
  {
    assert s == s[..b] + s[b..];
    var i :| 0 <= i < b && s[i] == y;
    var j :| b <= j < |s| && s[j] == x;
    assert !Better(s[j], s[i]);
  }

  /** The hits a tier gave are bounded by the merged best score of their key. */
  ghost function Score(answers: Answers, k: DedupeKey): real
    requires k in BestOf(AllHits(answers))
  {
    BestOf(AllHits(answers))[k].result.score
  }

  ghost predicate Merged(answers: Answers, k: DedupeKey)
  {
    k in BestOf(AllHits(answers))
  }

  /** Among more than `i` merged keys, one scores no higher than the entry ranked at `i`. */
  lemma RankedAt(answers: Answers, r: seq<SearchResult>, keys: set<DedupeKey>, i: nat)
    requires IsRanking(r, BestOf(AllHits(answers)))
    requires |keys| > i && forall k :: k in keys ==> Merged(answers, k)
    ensures i < |r| && exists k :: k in keys && Merged(answers, k) && Score(answers, k) <= r[i].score
  {
    var best := BestOf(AllHits(answers));
    BestIsWellKeyed(AllHits(answers));
    RankingLength(r, best);
    SubsetSize(keys, best.Keys);
    if forall k :: k in keys ==> Score(answers, k) > r[i].score {
      var low := set sr | sr in r[..i] :: KeyOf(sr);
      forall k | k in keys
        ensures k in low
      {
        RankedBefore(r, best, i, k);
      }
      SubsetSize(keys, low);
      assert DistinctKeys(r[..i]);
      KeyCount(r[..i]);
      assert false;
    }
  }

  lemma RankedBefore(r: seq<SearchResult>, best: Best, i: nat, k: DedupeKey)
    requires WellKeyed(best) && IsRanking(r, best) && i < |r| && k in best && best[k].result.score > r[i].score
    ensures best[k].result in r[..i] && KeyOf(best[k].result) == k
  {
    assert best[k].result in r;
    var j :| 0 <= j < |r| && r[j] == best[k].result;
    assert j == i || j < i || !Outranks(r[j], r[i]);
    assert r[..i][j] == r[j];
  }

  lemma SubsetSize<T>(a: set<T>, b: set<T>)
    requires a <= b
    ensures |a| <= |b|
  {
    assert b == a + (b - a);
  }

  lemma RankedDescending(r: seq<SearchResult>, best: Best, j: nat, i: nat)
    requires IsRanking(r, best) && j <= i < |r|
    ensures r[j].score >= r[i].score
  {
    assert j < i ==> !Outranks(r[i], r[j]);
  }

  /** The keys of the first `i + 1` entries: distinct, merged, and scoring at least as much as entry `i`. */
  lemma TopKeys(answers: Answers, r: seq<SearchResult>, i: nat) returns (keys: set<DedupeKey>)
    requires IsRanking(r, BestOf(AllHits(answers))) && i < |r|
    ensures |keys| == i + 1
    ensures forall k :: k in keys ==> Merged(answers, k) && Score(answers, k) >= r[i].score
  {
    var best := BestOf(AllHits(answers));
    var top := r[..i + 1];
    keys := set sr | sr in top :: KeyOf(sr);
    assert DistinctKeys(top);
    KeyCount(top);
    forall k | k in keys
      ensures Merged(answers, k) && Score(answers, k) >= r[i].score
    {
      var j :| 0 <= j <= i && KeyOf(r[j]) == k;
      assert r[j] in r;
      RankedDescending(r, best, j, i);
    }
  }

  // ----- What the cut answers keep -----

  lemma CutScoresBelow(cut: Answers, full: Answers, budgets: map<Kind, nat>, topK: nat, k: DedupeKey)
    requires CutAnswers(cut, full, budgets, topK) && Merged(cut, k)
    ensures Merged(full, k) && Score(cut, k) <= Score(full, k)
  {
    BestComesFromAnswers(cut, k);
    var hit := BestOf(AllHits(cut))[k];
    assert CutAnswer(cut[hit.kind], full[hit.kind], budgets[hit.kind], topK);
    CutFacts(cut[hit.kind], full[hit.kind], budgets[hit.kind]);
    BestIsAtLeast(full, hit.kind, hit.result);
  }

  /** If a tier dropped a hit, it gave at least `topK` other keys, none scoring less. */
  lemma DroppedHit(cut: Answers, full: Answers, budgets: map<Kind, nat>, topK: nat, kind: Kind, x: SearchResult)
    returns (keys: set<DedupeKey>)
    requires CutAnswers(cut, full, budgets, topK) && kind in full
    requires x in full[kind] && x !in cut[kind]
    ensures |keys| >= topK && KeyOf(x) !in keys
    ensures forall k :: k in keys ==> Merged(cut, k) && Score(cut, k) >= x.score
  {
    assert CutAnswer(cut[kind], full[kind], budgets[kind], topK);
    CutFacts(cut[kind], full[kind], budgets[kind]);
    keys := set y | y in cut[kind] :: KeyOf(y);
    KeyCount(cut[kind]);
    forall k | k in keys
      ensures Merged(cut, k) && Score(cut, k) >= x.score
    {
      var y :| y in cut[kind] && KeyOf(y) == k;
      BestIsAtLeast(cut, kind, y);
    }
    forall y | y in cut[kind]
      ensures KeyOf(y) != KeyOf(x)
    {
      SameKeySameHit(full[kind], x, y);
    }
  }

  lemma SameKeySameHit(s: seq<SearchResult>, x: SearchResult, y: SearchResult)
    requires DistinctKeys(s) && x in s && y in s
    ensures KeyOf(x) == KeyOf(y) ==> x == y
  {
    var i :| 0 <= i < |s| && s[i] == x;
    var j :| 0 <= j < |s| && s[j] == y;
  }

  /** Every key keeps its full score in the cut answers, or some tier gave `topK` keys that score `t` or more. */
  lemma KeptOrCrowded(cut: Answers, full: Answers, budgets: map<Kind, nat>, topK: nat, keys: set<DedupeKey>, t: real)
    returns (kept: set<DedupeKey>)
    requires CutAnswers(cut, full, budgets, topK)
    requires forall k :: k in keys ==> Merged(full, k) && Score(full, k) >= t
    ensures |kept| >= Min(topK, |keys|)
    ensures forall k :: k in kept ==> Merged(cut, k) && Score(cut, k) >= t
  {
    if k :| k in keys && !HitKept(cut, full, k) {
      BestComesFromAnswers(full, k);
      var hit := BestOf(AllHits(full))[k];
      kept := DroppedHit(cut, full, budgets, topK, hit.kind, hit.result);
    } else {
      kept := keys;
      forall k | k in keys
        ensures Merged(cut, k) && Score(cut, k) >= t
      {
        var hit := BestOf(AllHits(full))[k];
        BestComesFromAnswers(full, k);
        BestIsAtLeast(cut, hit.kind, hit.result);
      }
    }
  }

  ghost predicate HitKept(cut: Answers, full: Answers, k: DedupeKey)
    requires Merged(full, k)
  {
    var hit := BestOf(AllHits(full))[k];
    hit.result in AnswerOf(cut, hit.kind)
  }

  // ----- The theorems -----

  /** The first `topK` scores are those of merging everything. */
  lemma ScoresAreLossless(cut: Answers, full: Answers, budgets: map<Kind, nat>, topK: nat,
                          r: seq<SearchResult>, rc: seq<SearchResult>, i: nat)
    requires CutAnswers(cut, full, budgets, topK) && i < topK
    requires IsRanking(r, BestOf(AllHits(full))) && IsRanking(rc, BestOf(AllHits(cut)))
    ensures i < |r| <==> i < |rc|
    ensures i < |r| ==> r[i].score == rc[i].score
  {
    hide CutAnswers;
    if i < |r| {
      var keys := TopKeys(full, r, i);
      var kept := KeptOrCrowded(cut, full, budgets, topK, keys, r[i].score);
      RankedAt(cut, rc, kept, i);
    }
    if i < |rc| {
      var keys := TopKeys(cut, rc, i);
      forall k | k in keys
        ensures Merged(full, k) && Score(full, k) >= rc[i].score
      {
        CutScoresBelow(cut, full, budgets, topK, k);
      }
      RankedAt(full, r, keys, i);
    }
  }

  /** No two distinct merged keys have the same score. */
  ghost predicate NoScoreTies(answers: Answers)
  {
    forall k, k' :: Merged(answers, k) && Merged(answers, k') && k != k' ==> Score(answers, k) != Score(answers, k')
  }

  /** Every hit of a key ranked among the first `topK` that has the key's full score was kept. */
  lemma TopHitsAreKept(cut: Answers, full: Answers, budgets: map<Kind, nat>, topK: nat,
                       r: seq<SearchResult>, i: nat, kind: Kind, x: SearchResult)
    requires CutAnswers(cut, full, budgets, topK) && NoScoreTies(full) && i < topK
    requires IsRanking(r, BestOf(AllHits(full))) && i < |r|
    requires kind in full && x in full[kind] && KeyOf(x) == KeyOf(r[i]) && x.score == r[i].score
    ensures x in cut[kind]
  {
    if x !in cut[kind] {
      var keys := DroppedHit(cut, full, budgets, topK, kind, x);
      BestIsAtLeast(full, kind, x);
      assert r[i] in r;
      assert Score(full, KeyOf(x)) == x.score;
      forall k | k in keys
        ensures Merged(full, k) && Score(full, k) > x.score
      {
        CutScoresBelow(cut, full, budgets, topK, k);
      }
      RankedAt(full, r, keys, i);
      assert false;
    }
  }

  /** The key at each of the first `topK` places is the same. */
  lemma KeysAreLossless(cut: Answers, full: Answers, budgets: map<Kind, nat>, topK: nat,
                        r: seq<SearchResult>, rc: seq<SearchResult>, i: nat)
    requires CutAnswers(cut, full, budgets, topK) && NoScoreTies(full) && i < topK && i < |r|
    requires IsRanking(r, BestOf(AllHits(full))) && IsRanking(rc, BestOf(AllHits(cut)))
    ensures i < |rc| && KeyOf(rc[i]) == KeyOf(r[i])
  {
    ScoresAreLossless(cut, full, budgets, topK, r, rc, i);
    assert r[i] in r && rc[i] in rc;
    var k := KeyOf(rc[i]);
    CutScoresBelow(cut, full, budgets, topK, k);
    assert Score(cut, k) == rc[i].score == r[i].score == Score(full, KeyOf(r[i]));
    if Score(full, k) > rc[i].score {
      BestComesFromAnswers(full, k);
      var hit := BestOf(AllHits(full))[k];
      if hit.result in cut[hit.kind] {
        BestIsAtLeast(cut, hit.kind, hit.result);
      } else {
        var keys := DroppedHit(cut, full, budgets, topK, hit.kind, hit.result);
        RankedAt(cut, rc, keys, i);
      }
      assert false;
    }
  }

  // ----- Tier of origin -----

  function Place(kind: Kind): nat
  {
    match kind
    case Working => 0
    case Episodic => 1
    case Semantic => 2
  }

  lemma {:induction false} HitsInTierOrder(answers: Answers, n: nat, i: nat, j: nat)
    requires n <= |KINDS| && i <= j < |HitsUpTo(answers, n)|
    ensures Place(HitsUpTo(answers, n)[i].kind) <= Place(HitsUpTo(answers, n)[j].kind) < n
  {
    if n > 0 {
      var before := HitsUpTo(answers, n - 1);
      if i < |before| {
        HitsInTierOrder(answers, n - 1, i, if j < |before| then j else i);
      }
      assert Place(KINDS[n - 1]) == n - 1;
    }
  }

  /** A merged result is attributed to the first tier that gave its key the best score. */
  lemma OriginIsFirst(answers: Answers, k: DedupeKey, kind: Kind, x: SearchResult)
    requires Merged(answers, k) && x in AnswerOf(answers, kind) && KeyOf(x) == k && x.score == Score(answers, k)
    ensures Place(BestOf(AllHits(answers))[k].kind) <= Place(kind)
  {
    var hits := AllHits(answers);
    BestIsFirstMaximum(hits, k);
    var i :| FirstBest(hits, i) && hits[i] == BestOf(hits)[k] && KeyOf(hits[i].result) == k;
    AllHitsAre(answers, Hit(kind, x));
    var j :| 0 <= j < |hits| && hits[j] == Hit(kind, x);
    assert i <= j;
    HitsInTierOrder(answers, |KINDS|, i, j);
  }

  /** Without score ties, results and tiers of origin are those of merging everything. */
  lemma EntriesAreLossless(cut: Answers, full: Answers, budgets: map<Kind, nat>, topK: nat,
                           r: seq<SearchResult>, rc: seq<SearchResult>, i: nat)
    requires CutAnswers(cut, full, budgets, topK) && NoScoreTies(full) && i < topK && i < |r|
    requires IsRanking(r, BestOf(AllHits(full))) && IsRanking(rc, BestOf(AllHits(cut)))
    ensures i < |rc| && rc[i] == r[i]
    ensures var k := KeyOf(r[i]);
            Merged(full, k) && Merged(cut, k) && BestOf(AllHits(cut))[k] == BestOf(AllHits(full))[k]
  {
    KeysAreLossless(cut, full, budgets, topK, r, rc, i);
    ScoresAreLossless(cut, full, budgets, topK, r, rc, i);
    assert r[i] in r && rc[i] in rc;
    var k := KeyOf(r[i]);
    var hit, hitc := BestOf(AllHits(full))[k], BestOf(AllHits(cut))[k];
    BestComesFromAnswers(full, k);
    BestComesFromAnswers(cut, k);
    TopHitsAreKept(cut, full, budgets, topK, r, i, hit.kind, hit.result);
    OriginIsFirst(cut, k, hit.kind, hit.result);
    CutHit(cut, full, budgets, topK, hitc.kind, hitc.result);
    OriginIsFirst(full, k, hitc.kind, hitc.result);
    PlaceUnique(hit.kind, hitc.kind);
    assert CutAnswer(cut[hit.kind], full[hit.kind], budgets[hit.kind], topK);
    SameKeySameHit(full[hit.kind], hit.result, hitc.result);
  }

  lemma PlaceUnique(a: Kind, b: Kind)
    requires Place(a) <= Place(b) <= Place(a)
    ensures a == b
  {
  }

  lemma CutHit(cut: Answers, full: Answers, budgets: map<Kind, nat>, topK: nat, kind: Kind, x: SearchResult)
    requires CutAnswers(cut, full, budgets, topK) && kind in cut && x in cut[kind]
    ensures x in full[kind]
  {
    assert CutAnswer(cut[kind], full[kind], budgets[kind], topK);
    CutFacts(cut[kind], full[kind], budgets[kind]);
  }

  ghost function Scores(r: seq<SearchResult>): seq<real>
  {
    seq(|r|, i requires 0 <= i < |r| => r[i].score)
  }

  /**
   * Top-K push-down is lossless: recall over the cut answers returns the scores that
   * merging, deduplicating, sorting and cutting the full lists would return, and the
   * same results when no two merged keys have the same score.
   */
  lemma PushdownIsLossless(cut: Answers, full: Answers, budgets: map<Kind, nat>, topK: nat,
                           r: seq<SearchResult>, rc: seq<SearchResult>)
    requires CutAnswers(cut, full, budgets, topK)
    requires IsRanking(r, BestOf(AllHits(full))) && IsRanking(rc, BestOf(AllHits(cut)))
    ensures Scores(Shorter(topK, rc)) == Scores(Shorter(topK, r))
    ensures NoScoreTies(full) ==> Shorter(topK, rc) == Shorter(topK, r)
  {
    hide CutAnswers, IsRanking, NoScoreTies;
    SameReach(cut, full, budgets, topK, r, rc);
    forall i | 0 <= i < |Shorter(topK, r)|
      ensures Shorter(topK, rc)[i].score == Shorter(topK, r)[i].score
    {
      ScoresAreLossless(cut, full, budgets, topK, r, rc, i);
    }
    if NoScoreTies(full) {
      forall i | 0 <= i < |Shorter(topK, r)|
        ensures Shorter(topK, rc)[i] == Shorter(topK, r)[i]
      {
        EntriesAreLossless(cut, full, budgets, topK, r, rc, i);
      }
    }
  }

  lemma SameReach(cut: Answers, full: Answers, budgets: map<Kind, nat>, topK: nat,
                  r: seq<SearchResult>, rc: seq<SearchResult>)
    requires CutAnswers(cut, full, budgets, topK)
    requires IsRanking(r, BestOf(AllHits(full))) && IsRanking(rc, BestOf(AllHits(cut)))
    ensures |Shorter(topK, rc)| == |Shorter(topK, r)|
  {
    hide CutAnswers, IsRanking;
    var m, n := |Shorter(topK, rc)|, |Shorter(topK, r)|;
    if m < n {
      ScoresAreLossless(cut, full, budgets, topK, r, rc, m);
    } else if n < m {
      ScoresAreLossless(cut, full, budgets, topK, r, rc, n);
    }
  }

  /** Each tier was asked for its budget, and no budget is below the number of results wanted. */
  ghost predicate AskedEnough(cut: Answers, full: Answers, opts: RecallOptions)
  {
    && cut.Keys == full.Keys
    && forall k :: k in full ==>
         && Budget(opts, k) >= TopK(opts) && DistinctKeys(full[k])
         && IsCut(cut[k], full[k], Budget(opts, k))
  }

  /** Budgets that are unset, not positive, or at least TopK are enough. */
  lemma LargeBudgetsAreEnough(opts: RecallOptions, kind: Kind)
    ensures Budget(opts, kind) >= TopK(opts) <==>
              !(kind in opts.budgets && 0 < opts.budgets[kind] < TopK(opts))
  {
  }

  /** What a recall returns is what it would return over the tiers' full lists. */
  lemma RecallIsLossless(out: UnifiedRecall, cut: Answers, full: Answers, opts: RecallOptions,
                         kinds: seq<Kind>, r: seq<SearchResult>)
    requires AskedEnough(cut, full, opts)
    requires IsRecall(out, cut, TopK(opts), opts.includeProvenance, kinds) && IsRanking(r, BestOf(AllHits(full)))
    ensures Scores(out.results) == Scores(Shorter(TopK(opts), r))
    ensures NoScoreTies(full) ==> out.results == Shorter(TopK(opts), r)
  {
    var budgets := map k | k in full :: Budget(opts, k);
    forall k | k in full
      ensures CutAnswer(cut[k], full[k], budgets[k], TopK(opts))
    {
      assert Budget(opts, k) >= TopK(opts);
    }
    assert CutAnswers(cut, full, budgets, TopK(opts));
    hide CutAnswers, NoScoreTies, IsProvenance, Scores, AskedEnough;
    var rc :| IsRanking(rc, BestOf(AllHits(cut))) && out.results == Shorter(TopK(opts), rc);
    PushdownIsLossless(cut, full, budgets, TopK(opts), r, rc);
  }

  /** The answers of a recall that asks one tier only. */
  function OnlyTier(kind: Kind, results: seq<SearchResult>): Answers
  {
    map[kind := results]
  }

  lemma OneTierRanking(kind: Kind, results: seq<SearchResult>, r: seq<SearchResult>)
    requires DistinctKeys(results) && IsRanking(r, BestOf(AllHits(OnlyTier(kind, results))))
    ensures |r| == |results|
  {
    var answers := OnlyTier(kind, results);
    var best, keys := BestOf(AllHits(answers)), set sr | sr in results :: KeyOf(sr);
    BestIsWellKeyed(AllHits(answers));
    RankingLength(r, best);
    KeyCount(results);
    forall k | k in best
      ensures k in keys
    {
      BestComesFromAnswers(answers, k);
    }
    forall sr | sr in results
      ensures KeyOf(sr) in best
    {
      BestIsAtLeast(answers, kind, sr);
    }
    assert best.Keys == keys;
  }

  lemma CutLength(cut: seq<SearchResult>, full: seq<SearchResult>, b: nat)
    requires IsCut(cut, full, b)
    ensures |cut| == Min(b, |full|)
  {
    var s :| Permutation(s, full) && Sorted(s, Better) && cut == Shorter(b, s);
    SameElements(s, full);
  }

  /**
   * Budgets below TopK lose results: over one tier with any number of hits and any budget, recall
   * returns as many as were wanted and there are if and only if the budget is at least TopK or
   * covers all hits.
   */
  lemma SmallBudgetLosesIff(kind: Kind, full: seq<SearchResult>, cut: seq<SearchResult>, b: nat, topK: nat,
                            r: seq<SearchResult>, rc: seq<SearchResult>)
    requires DistinctKeys(full) && IsCut(cut, full, b)
    requires IsRanking(r, BestOf(AllHits(OnlyTier(kind, full))))
    requires IsRanking(rc, BestOf(AllHits(OnlyTier(kind, cut))))
    ensures |Shorter(topK, r)| == Min(topK, |full|) && |Shorter(topK, rc)| == Min(topK, Min(b, |full|))
    ensures Scores(Shorter(topK, rc)) == Scores(Shorter(topK, r)) <==> b >= topK || |full| <= b
  {
    CutFacts(cut, full, b);
    CutLength(cut, full, b);
    OneTierRanking(kind, full, r);
    OneTierRanking(kind, cut, rc);
    if b >= topK || |full| <= b {
      EnoughLosesNothing(kind, full, cut, b, topK, r, rc);
    }
  }

  lemma EnoughLosesNothing(kind: Kind, full: seq<SearchResult>, cut: seq<SearchResult>, b: nat, topK: nat,
                           r: seq<SearchResult>, rc: seq<SearchResult>)
    requires DistinctKeys(full) && IsCut(cut, full, b) && (b >= topK || |full| <= b)
    requires IsRanking(r, BestOf(AllHits(OnlyTier(kind, full))))
    requires IsRanking(rc, BestOf(AllHits(OnlyTier(kind, cut))))
    ensures Scores(Shorter(topK, rc)) == Scores(Shorter(topK, r))
  {
    hide *;
    var n := if b >= topK then b else topK;
    WiderCut(cut, full, b, n);
    OneTierCut(kind, cut, full, n, topK);
    PushdownIsLossless(OnlyTier(kind, cut), OnlyTier(kind, full), map[kind := n], topK, r, rc);
  }

  lemma WiderCut(cut: seq<SearchResult>, full: seq<SearchResult>, b: nat, n: nat)
    requires IsCut(cut, full, b) && (n == b || |full| <= b <= n)
    ensures IsCut(cut, full, n)
  {
    var s :| Permutation(s, full) && Sorted(s, Better) && cut == Shorter(b, s);
    SameElements(s, full);
    assert cut == Shorter(n, s);
  }

  lemma OneTierCut(kind: Kind, cut: seq<SearchResult>, full: seq<SearchResult>, b: nat, topK: nat)
    requires DistinctKeys(full) && IsCut(cut, full, b) && b >= topK
    ensures CutAnswers(OnlyTier(kind, cut), OnlyTier(kind, full), map[kind := b], topK)
  {
    hide IsCut, DistinctKeys;
  }
}
