/** Conservation and schedule independence of recall. */
module RecallProofs {
  import opened Types
  import opened Ordering
  import opened Rounds
  import opened Merge
  import opened Recall

  // ----- Rankings -----

  lemma {:induction false} KeyCount(r: seq<SearchResult>)
    requires DistinctKeys(r)
    ensures |set sr | sr in r :: KeyOf(sr)| == |r|
  {
    if r == [] {
      assert (set sr | sr in r :: KeyOf(sr)) == {};
    } else {
      var init, last := r[..|r| - 1], r[|r| - 1];
      assert r == init + [last];
      KeyCount(init);
      assert (set sr | sr in r :: KeyOf(sr)) == (set sr | sr in init :: KeyOf(sr)) + {KeyOf(last)};
      assert KeyOf(last) !in (set sr | sr in init :: KeyOf(sr));
    }
  }

  /** A ranking has one entry per distinct key. */
  lemma RankingLength(r: seq<SearchResult>, best: Best)
    requires WellKeyed(best) && Enumerates(r, best)
    ensures |r| == |best.Keys|
  {
    KeyCount(r);
    forall k | k in best
      ensures k in (set sr | sr in r :: KeyOf(sr))
    {
      assert best[k].result in r;
    }
    assert (set sr | sr in r :: KeyOf(sr)) == best.Keys;
  }

  lemma DistinctSame<T>(s: seq<T>, t: seq<T>)
    requires Distinct(s) && Distinct(t) && forall x :: x in s <==> x in t
    ensures Permutation(s, t)
  {
    forall x
      ensures multiset(s)[x] == multiset(t)[x]
    {
      DistinctCount(s, x);
      DistinctCount(t, x);
      assert x in s <==> x in multiset(s);
      assert x in t <==> x in multiset(t);
    }
  }

  lemma RankingsArePermutations(r: seq<SearchResult>, r': seq<SearchResult>, best: Best)
    requires Enumerates(r, best) && Enumerates(r', best)
    ensures Permutation(r, r')
  {
    assert Distinct(r) && Distinct(r');
    DistinctSame(r, r');
  }

  /** Scores and IDs of a ranking do not depend on how ties were broken. */
  lemma RankingsAgree(r: seq<SearchResult>, r': seq<SearchResult>, best: Best, i: nat)
    requires IsRanking(r, best) && IsRanking(r', best) && i < |r|
    ensures |r| == |r'| && r[i].score == r'[i].score && r[i].item.id == r'[i].item.id
  {
    hide Enumerates;
    RankingsArePermutations(r, r', best);
    assert StrictWeakOrder(Outranks) by { RankingOrder(); }
    SortedAgree(r, r', Outranks, i);
    StringTrichotomy(r[i].item.id, r'[i].item.id);
  }

  /** No two distinct merged keys share both score and ID. */
  ghost predicate NoTies(best: Best)
  {
    forall k, k' :: k in best && k' in best && k != k' ==>
      best[k].result.score != best[k'].result.score || k.id != k'.id
  }

  lemma StrictRanking(r: seq<SearchResult>, best: Best)
    requires IsRanking(r, best) && NoTies(best)
    ensures StrictlySorted(r, Outranks)
  {
    forall i, j | 0 <= i < j < |r|
      ensures Outranks(r[i], r[j])
    {
      assert r[i] in r && r[j] in r;
      assert KeyOf(r[i]) != KeyOf(r[j]);
      StringTrichotomy(r[i].item.id, r[j].item.id);
    }
  }

  /** Without ties there is only one ranking. */
  lemma RankingUnique(r: seq<SearchResult>, r': seq<SearchResult>, best: Best)
    requires IsRanking(r, best) && IsRanking(r', best) && NoTies(best)
    ensures r == r'
  {
    StrictRanking(r, best);
    StrictRanking(r', best);
    RankingOrder();
    StrictlySortedUnique(r, r', Outranks);
  }

  // ----- Schedule independence -----

  lemma SameAnswers(answers: Answers, answers': Answers, arrivals: seq<Arrival>, arrivals': seq<Arrival>)
    requires Received(answers, arrivals) && Received(answers', arrivals')
    requires forall a :: a in arrivals <==> a in arrivals'
    ensures answers == answers'
  {
    forall k
      ensures k in answers <==> k in answers'
      ensures k in answers ==> answers[k] == answers'[k]
    {
      if k in answers {
        assert Arrival(k, Hits(answers[k])) in arrivals';
      }
      if k in answers' {
        assert Arrival(k, Hits(answers'[k])) in arrivals;
      }
    }
  }

  /**
   * Two runs over the same messages, in any arrival order and with any map iteration
   * order, drop the same number, return the same scores and IDs in the same places,
   * and return the same everything when no two merged keys share score and ID.
   */
  lemma ScheduleIndependent(arrivals: seq<Arrival>, arrivals': seq<Arrival>, answers: Answers, answers': Answers,
                            topK: nat, provenance: bool, kinds: seq<Kind>, out: UnifiedRecall, out': UnifiedRecall)
    requires forall a :: a in arrivals <==> a in arrivals'
    requires Received(answers, arrivals) && Received(answers', arrivals')
    requires IsRecall(out, answers, topK, provenance, kinds)
    requires IsRecall(out', answers', topK, provenance, kinds)
    ensures |out.results| == |out'.results| && out.totalDropped == out'.totalDropped
    ensures forall i :: 0 <= i < |out.results| ==>
              out.results[i].score == out'.results[i].score && out.results[i].item.id == out'.results[i].item.id
    ensures NoTies(BestOf(AllHits(answers))) ==> out == out'
  {
    SameAnswers(answers, answers', arrivals, arrivals');
    hide Received, IsProvenance;
    var best := BestOf(AllHits(answers));
    var r :| IsRanking(r, best) && out.results == Shorter(topK, r);
    var r' :| IsRanking(r', best) && out'.results == Shorter(topK, r');
    SameLength(r, r', best);
    forall i | 0 <= i < |out.results|
      ensures out.results[i].score == out'.results[i].score && out.results[i].item.id == out'.results[i].item.id
    {
      RankingsAgree(r, r', best, i);
    }
    if NoTies(best) {
      RankingUnique(r, r', best);
      SameProvenance(out, out', answers, provenance, kinds);
    }
  }

  lemma SameLength(r: seq<SearchResult>, r': seq<SearchResult>, best: Best)
    requires IsRanking(r, best) && IsRanking(r', best)
    ensures |r| == |r'|
  {
    RankingsArePermutations(r, r', best);
    SameElements(r, r');
  }

  lemma SameProvenance(out: UnifiedRecall, out': UnifiedRecall, answers: Answers, provenance: bool, kinds: seq<Kind>)
    requires out.results == out'.results
    requires (out.perTier.Some? <==> provenance) && (out'.perTier.Some? <==> provenance)
    requires provenance ==> var best := BestOf(AllHits(answers));
                            && IsProvenance(out.perTier.value, kinds, answers, out.results, best)
                            && IsProvenance(out'.perTier.value, kinds, answers, out'.results, best)
    ensures out.perTier == out'.perTier
  {
    if provenance {
      assert out.perTier.value == out'.perTier.value;
    }
  }

  /** Two results with the same score and ID but different content may come in either order. */
  lemma TiesAreOpen(a: SearchResult, b: SearchResult)
    requires a.score == b.score && a.item.id == b.item.id && a.item.content != b.item.content
    ensures var best := BestOf([Hit(Working, a), Hit(Working, b)]);
            IsRanking([a, b], best) && IsRanking([b, a], best)
  {
    var hits := [Hit(Working, a), Hit(Working, b)];
    BestNext([], Hit(Working, a));
    BestNext([Hit(Working, a)], Hit(Working, b));
    assert [] + [Hit(Working, a)] == [Hit(Working, a)] && [Hit(Working, a)] + [Hit(Working, b)] == hits;
    assert BestOf(hits) == map[KeyOf(a) := Hit(Working, a)][KeyOf(b) := Hit(Working, b)];
    StringTrichotomy(a.item.id, a.item.id);
  }

  predicate Tied(a: SearchResult, b: SearchResult)
  {
    a.score == b.score && a.item.id == b.item.id
  }

  /** No tie among the first `topK` places, nor between the last of them and the next. */
  ghost predicate NoTiesInReach(r: seq<SearchResult>, topK: nat)
  {
    forall i :: 0 <= i < topK && i + 1 < |r| ==> !Tied(r[i], r[i + 1])
  }

  function Swapped(r: seq<SearchResult>, i: nat): seq<SearchResult>
    requires i + 1 < |r|
  {
    r[i := r[i + 1]][i + 1 := r[i]]
  }

  /** Neighbours that tie can be exchanged. */
  lemma SwapTied(r: seq<SearchResult>, best: Best, i: nat)
    requires IsRanking(r, best) && i + 1 < |r| && Tied(r[i], r[i + 1])
    ensures IsRanking(Swapped(r, i), best) && Swapped(r, i)[i] != r[i]
  {
    var r' := Swapped(r, i);
    assert Permutation(r', r);
    PermutedEnumeration(r', r, best);
    assert KeyOf(r[i]) != KeyOf(r[i + 1]);
    hide Enumerates;
    forall a, b | 0 <= a < b < |r'|
      ensures !Outranks(r'[b], r'[a])
    {
      SwappedSorted(r, i, a, b);
    }
  }

  lemma SwappedSorted(r: seq<SearchResult>, i: nat, a: nat, b: nat)
    requires Sorted(r, Outranks) && i + 1 < |r| && Tied(r[i], r[i + 1]) && a < b < |r|
    ensures !Outranks(Swapped(r, i)[b], Swapped(r, i)[a])
  {
    var r' := Swapped(r, i);
    assert Tied(r'[a], r[a]) && Tied(r'[b], r[b]);
    assert !Outranks(r[b], r[a]);
  }

  lemma StrictInReach(r: seq<SearchResult>, topK: nat, i: nat, j: nat)
    requires Sorted(r, Outranks) && NoTiesInReach(r, topK) && i < topK && i < j < |r|
    ensures Outranks(r[i], r[j]) && !Tied(r[i], r[j])
  {
    assert !Tied(r[i], r[i + 1]) && !Outranks(r[i + 1], r[i]);
    StringTrichotomy(r[i].item.id, r[i + 1].item.id);
    assert Outranks(r[i], r[i + 1]);
    if j > i + 1 {
      assert !Outranks(r[j], r[i + 1]);
      assert StrictWeakOrder(Outranks) by { RankingOrder(); }
    }
    StringTrichotomy(r[i].item.id, r[j].item.id);
  }

  lemma SameInReach(r: seq<SearchResult>, r': seq<SearchResult>, best: Best, topK: nat, i: nat)
    requires IsRanking(r, best) && IsRanking(r', best) && NoTiesInReach(r, topK) && i < topK && i < |r|
    ensures i < |r'| && r'[i] == r[i]
  {
    RankingsAgree(r, r', best, i);
    assert r'[i] in r' && r'[i] in r;
    var j :| 0 <= j < |r| && r[j] == r'[i];
    hide Enumerates, NoTiesInReach;
    if j < i {
      StrictInReach(r, topK, j, i);
    } else if i < j {
      StrictInReach(r, topK, i, j);
    }
  }

  /** Every schedule of a recall over these answers returns the same. */
  ghost predicate Deterministic(answers: Answers, topK: nat, provenance: bool, kinds: seq<Kind>)
  {
    forall out, out' ::
      IsRecall(out, answers, topK, provenance, kinds) && IsRecall(out', answers, topK, provenance, kinds) ==>
        out == out'
  }

  /** The recall that returns the first `topK` of the ranking `r`. */
  ghost function RecallOf(r: seq<SearchResult>, answers: Answers, topK: nat, provenance: bool, kinds: seq<Kind>)
    : (out: UnifiedRecall)
    requires IsRanking(r, BestOf(AllHits(answers)))
    ensures IsRecall(out, answers, topK, provenance, kinds) && out.results == Shorter(topK, r)
  {
    var best, results := BestOf(AllHits(answers)), Shorter(topK, r);
    var perTier := map k | k in kinds :: TierStats(|AnswerOf(answers, k)|, FromTier(results, best, k));
    UnifiedRecall(results, if provenance then Some(perTier) else None, |AllHits(answers)| - |results|)
  }

  /**
   * All schedules agree, in results and in counters, if and only if no two neighbouring results tie on
   * score and ID among the first `topK` places and the place after them.
   */
  lemma DeterministicIff(answers: Answers, topK: nat, provenance: bool, kinds: seq<Kind>, r: seq<SearchResult>)
    requires IsRanking(r, BestOf(AllHits(answers)))
    ensures Deterministic(answers, topK, provenance, kinds) <==> NoTiesInReach(r, topK)
  {
    if NoTiesInReach(r, topK) {
      hide IsRecall, RecallOf;
      forall out | IsRecall(out, answers, topK, provenance, kinds)
        ensures out == RecallOf(r, answers, topK, provenance, kinds)
      {
        SameRecall(answers, topK, provenance, kinds, r, out);
      }
    } else {
      TieMakesTwo(answers, topK, provenance, kinds, r);
    }
  }

  lemma TieMakesTwo(answers: Answers, topK: nat, provenance: bool, kinds: seq<Kind>, r: seq<SearchResult>)
    requires IsRanking(r, BestOf(AllHits(answers))) && !NoTiesInReach(r, topK)
    ensures !Deterministic(answers, topK, provenance, kinds)
  {
    var i :| 0 <= i < topK && i + 1 < |r| && Tied(r[i], r[i + 1]);
    SwapTied(r, BestOf(AllHits(answers)), i);
    assert |Swapped(r, i)| == |r|;
    hide *;
    DifferentPlace(answers, topK, provenance, kinds, r, Swapped(r, i), i);
  }

  lemma DifferentPlace(answers: Answers, topK: nat, provenance: bool, kinds: seq<Kind>, r: seq<SearchResult>,
                       r': seq<SearchResult>, i: nat)
    requires IsRanking(r, BestOf(AllHits(answers))) && IsRanking(r', BestOf(AllHits(answers)))
    requires i < topK && i < |r| && i < |r'| && r[i] != r'[i]
    ensures !Deterministic(answers, topK, provenance, kinds)
  {
    hide IsRecall, IsRanking, RecallOf;
    var out := RecallOf(r, answers, topK, provenance, kinds);
    var out' := RecallOf(r', answers, topK, provenance, kinds);
    assert out.results[i] == r[i] && out'.results[i] == r'[i];
  }

  lemma SameRecall(answers: Answers, topK: nat, provenance: bool, kinds: seq<Kind>, r: seq<SearchResult>,
                   out: UnifiedRecall)
    requires IsRanking(r, BestOf(AllHits(answers))) && NoTiesInReach(r, topK)
    requires IsRecall(out, answers, topK, provenance, kinds)
    ensures out == RecallOf(r, answers, topK, provenance, kinds)
  {
    var best, expected := BestOf(AllHits(answers)), RecallOf(r, answers, topK, provenance, kinds);
    hide RecallOf, NoTiesInReach, IsProvenance;
    var r' :| IsRanking(r', best) && out.results == Shorter(topK, r');
    hide IsRanking;
    SameLength(r, r', best);
    forall i | 0 <= i < |out.results|
      ensures out.results[i] == expected.results[i]
    {
      SameInReach(r, r', best, topK, i);
    }
    assert out.results == expected.results;
    SameProvenance(out, expected, answers, provenance, kinds);
  }

  // ----- Conservation -----

  function StatsOf(perTier: map<Kind, TierStats>, k: Kind): TierStats
  {
    if k in perTier then perTier[k] else TierStats(0, 0)
  }

  /** Sums over all tiers; a tier without a row counts nothing. */
  function Considered(perTier: map<Kind, TierStats>): nat
  {
    StatsOf(perTier, Working).considered + StatsOf(perTier, Episodic).considered + StatsOf(perTier, Semantic).considered
  }

  function Returned(perTier: map<Kind, TierStats>): nat
  {
    StatsOf(perTier, Working).returned + StatsOf(perTier, Episodic).returned + StatsOf(perTier, Semantic).returned
  }

  lemma HitCount(answers: Answers)
    ensures |AllHits(answers)| ==
            |AnswerOf(answers, Working)| + |AnswerOf(answers, Episodic)| + |AnswerOf(answers, Semantic)|
  {
    assert |HitsUpTo(answers, 1)| == |AnswerOf(answers, Working)|;
    assert |HitsUpTo(answers, 2)| == |HitsUpTo(answers, 1)| + |AnswerOf(answers, Episodic)|;
    assert |HitsUpTo(answers, 3)| == |HitsUpTo(answers, 2)| + |AnswerOf(answers, Semantic)|;
  }

  lemma {:induction false} EveryResultHasOneOrigin(results: seq<SearchResult>, best: Best)
    requires forall i :: 0 <= i < |results| ==> KeyOf(results[i]) in best
    ensures FromTier(results, best, Working) + FromTier(results, best, Episodic) + FromTier(results, best, Semantic)
            == |results|
  {
    if results != [] {
      EveryResultHasOneOrigin(results[..|results| - 1], best);
    }
  }

  lemma {:induction false} NoneFromOthers(results: seq<SearchResult>, best: Best, kind: Kind)
    requires forall k :: k in best ==> best[k].kind != kind
    ensures FromTier(results, best, kind) == 0
  {
    if results != [] {
      NoneFromOthers(results[..|results| - 1], best, kind);
    }
  }

  lemma ProvenanceOf(perTier: map<Kind, TierStats>, kinds: seq<Kind>, answers: Answers,
                     results: seq<SearchResult>, kind: Kind)
    requires IsProvenance(perTier, kinds, answers, results, BestOf(AllHits(answers)))
    requires forall k :: k in answers ==> k in kinds
    ensures StatsOf(perTier, kind) ==
            TierStats(|AnswerOf(answers, kind)|, FromTier(results, BestOf(AllHits(answers)), kind))
  {
    var best := BestOf(AllHits(answers));
    if kind !in kinds {
      forall k | k in best
        ensures best[k].kind != kind
      {
        BestComesFromAnswers(answers, k);
      }
      NoneFromOthers(results, best, kind);
    }
  }

  /**
   * With provenance: the considered hits are the results plus the dropped ones, every
   * result is counted for exactly one tier, and there are min(topK, distinct keys) results.
   */
  lemma Conservation(out: UnifiedRecall, answers: Answers, topK: nat, kinds: seq<Kind>)
    requires IsRecall(out, answers, topK, true, kinds)
    requires forall k :: k in answers ==> k in kinds
    ensures Considered(out.perTier.value) == |out.results| + out.totalDropped
    ensures Returned(out.perTier.value) == |out.results|
    ensures |out.results| == Min(topK, |BestOf(AllHits(answers)).Keys|)
  {
    ResultCount(out, answers, topK, true, kinds);
    HitCount(answers);
    var best, perTier := BestOf(AllHits(answers)), out.perTier.value;
    EveryResultHasOneOrigin(out.results, best);
    hide *;
    ProvenanceOf(perTier, kinds, answers, out.results, Working);
    ProvenanceOf(perTier, kinds, answers, out.results, Episodic);
    ProvenanceOf(perTier, kinds, answers, out.results, Semantic);
    SumsAre(perTier, TierStats(|AnswerOf(answers, Working)|, FromTier(out.results, best, Working)),
            TierStats(|AnswerOf(answers, Episodic)|, FromTier(out.results, best, Episodic)),
            TierStats(|AnswerOf(answers, Semantic)|, FromTier(out.results, best, Semantic)));
  }

  lemma SumsAre(perTier: map<Kind, TierStats>, w: TierStats, e: TierStats, s: TierStats)
    requires StatsOf(perTier, Working) == w && StatsOf(perTier, Episodic) == e && StatsOf(perTier, Semantic) == s
    ensures Considered(perTier) == w.considered + e.considered + s.considered
    ensures Returned(perTier) == w.returned + e.returned + s.returned
  {
  }

  lemma ResultCount(out: UnifiedRecall, answers: Answers, topK: nat, provenance: bool, kinds: seq<Kind>)
    requires IsRecall(out, answers, topK, provenance, kinds)
    ensures var best := BestOf(AllHits(answers));
            && |out.results| == Min(topK, |best.Keys|)
            && forall i :: 0 <= i < |out.results| ==> KeyOf(out.results[i]) in best
  {
    var best := BestOf(AllHits(answers));
    var r :| IsRanking(r, best) && out.results == Shorter(topK, r);
    BestIsWellKeyed(AllHits(answers));
    RankingLength(r, best);
    forall i | 0 <= i < |out.results|
      ensures KeyOf(out.results[i]) in best
    {
      assert out.results[i] == r[i] && r[i] in r;
    }
  }

  /** A returned result carries the highest score any tier gave its key, and some tier did give it. */
  lemma ResultsAreMaximal(out: UnifiedRecall, answers: Answers, topK: nat, provenance: bool, kinds: seq<Kind>,
                          i: nat, kind: Kind, sr: SearchResult)
    requires IsRecall(out, answers, topK, provenance, kinds) && i < |out.results|
    requires sr in AnswerOf(answers, kind) && KeyOf(sr) == KeyOf(out.results[i])
    ensures sr.score <= out.results[i].score
    ensures exists k :: k in answers && out.results[i] in answers[k]
  {
    var best := BestOf(AllHits(answers));
    var r :| IsRanking(r, best) && out.results == Shorter(topK, r);
    assert out.results[i] == r[i] && r[i] in r;
    var key := KeyOf(sr);
    BestIsAtLeast(answers, kind, sr);
    BestComesFromAnswers(answers, key);
  }

  // ----- The tier a result is counted for -----

  /** The canonical order of the tiers: working, episodic, semantic. */
  predicate Earlier(j: Kind, k: Kind)
  {
    (j == Working && k != Working) || (j == Episodic && k == Semantic)
  }

  /** The two results are merged. */
  predicate SameText(a: SearchResult, b: SearchResult)
  {
    a.item.id == b.item.id && a.item.content == b.item.content
  }

  /** The tier gave this result, and no tier before it gave its ID and content an equal or higher score. */
  ghost predicate GivenFirstBy(sr: SearchResult, answers: Answers, kind: Kind)
  {
    && sr in AnswerOf(answers, kind)
    && forall j, x :: Earlier(j, kind) && x in AnswerOf(answers, j) && SameText(x, sr) ==> x.score < sr.score
  }

  lemma GivenFirstByOne(sr: SearchResult, answers: Answers, k: Kind, k': Kind)
    requires GivenFirstBy(sr, answers, k) && GivenFirstBy(sr, answers, k')
    ensures k == k'
  {
    assert SameText(sr, sr);
    assert !Earlier(k, k') && !Earlier(k', k);
  }

  lemma HitPositions(answers: Answers, i: nat, j: nat)
    requires i < j < |AllHits(answers)|
    ensures !Earlier(AllHits(answers)[j].kind, AllHits(answers)[i].kind)
  {
    var w, e := |AnswerOf(answers, Working)|, |AnswerOf(answers, Episodic)|;
    HitAt(answers, i);
    HitAt(answers, j);
  }

  lemma HitAt(answers: Answers, i: nat)
    requires i < |AllHits(answers)|
    ensures var w, e := |AnswerOf(answers, Working)|, |AnswerOf(answers, Episodic)|;
            AllHits(answers)[i].kind == if i < w then Working else if i < w + e then Episodic else Semantic
  {
    hide Tagged, AnswerOf;
    assert HitsUpTo(answers, 1) == [] + Tagged(Working, AnswerOf(answers, Working));
    assert HitsUpTo(answers, 2) == HitsUpTo(answers, 1) + Tagged(Episodic, AnswerOf(answers, Episodic));
    assert HitsUpTo(answers, 3) == HitsUpTo(answers, 2) + Tagged(Semantic, AnswerOf(answers, Semantic));
  }

  /** The kept hit of a key belongs to the first tier that gave its score. */
  lemma OriginIsFirst(answers: Answers, key: DedupeKey)
    requires key in BestOf(AllHits(answers))
    ensures var hit := BestOf(AllHits(answers))[key]; GivenFirstBy(hit.result, answers, hit.kind)
  {
    var hits := AllHits(answers);
    BestIsFirstMaximum(hits, key);
    var i :| FirstBest(hits, i) && hits[i] == BestOf(hits)[key] && KeyOf(hits[i].result) == key;
    BestComesFromAnswers(answers, key);
    hide BestOf, AllHits;
    forall j, x | Earlier(j, hits[i].kind) && x in AnswerOf(answers, j) && SameText(x, hits[i].result)
      ensures x.score < hits[i].result.score
    {
      EarlierHitScoresLess(answers, i, j, x);
    }
  }

  lemma EarlierHitScoresLess(answers: Answers, i: nat, j: Kind, x: SearchResult)
    requires FirstBest(AllHits(answers), i)
    requires Earlier(j, AllHits(answers)[i].kind) && x in AnswerOf(answers, j)
    requires SameText(x, AllHits(answers)[i].result)
    ensures x.score < AllHits(answers)[i].result.score
  {
    var hits := AllHits(answers);
    AllHitsAre(answers, Hit(j, x));
    var p :| 0 <= p < |hits| && hits[p] == Hit(j, x);
    if i < p {
      HitPositions(answers, i, p);
    }
    hide AllHits;
    assert p < i;
  }

  /** The places of the results that this tier was the first to give with their score. */
  ghost function PlacesFrom(results: seq<SearchResult>, answers: Answers, kind: Kind): set<int>
  {
    set i | 0 <= i < |results| && GivenFirstBy(results[i], answers, kind)
  }

  lemma NextPlace(results: seq<SearchResult>, answers: Answers, kind: Kind)
    requires results != []
    ensures var n := |results| - 1;
            |PlacesFrom(results, answers, kind)| ==
            |PlacesFrom(results[..n], answers, kind)| + if GivenFirstBy(results[n], answers, kind) then 1 else 0
  {
    var n := |results| - 1;
    var before, here := PlacesFrom(results[..n], answers, kind), PlacesFrom(results, answers, kind);
    assert n !in before;
    forall i
      ensures i in here <==> i in before || (i == n && GivenFirstBy(results[n], answers, kind))
    {
      hide GivenFirstBy;
    }
    hide PlacesFrom, GivenFirstBy;
    assert here == before + if GivenFirstBy(results[n], answers, kind) then {n} else {};
  }

  /** A tier's `returned` counts exactly the results that this tier was the first to give with their score. */
  lemma {:induction false} ReturnedCounts(results: seq<SearchResult>, answers: Answers, kind: Kind)
    requires var best := BestOf(AllHits(answers));
             forall i :: 0 <= i < |results| ==>
               KeyOf(results[i]) in best && best[KeyOf(results[i])].result == results[i]
    ensures FromTier(results, BestOf(AllHits(answers)), kind) == |PlacesFrom(results, answers, kind)|
  {
    var best := BestOf(AllHits(answers));
    hide BestOf, AllHits, GivenFirstBy;
    if results == [] {
      assert PlacesFrom(results, answers, kind) == {};
    } else {
      var n := |results| - 1;
      ReturnedCounts(results[..n], answers, kind);
      NextPlace(results, answers, kind);
      hide PlacesFrom;
      OriginIsFirst(answers, KeyOf(results[n]));
      if GivenFirstBy(results[n], answers, kind) {
        GivenFirstByOne(results[n], answers, kind, best[KeyOf(results[n])].kind);
      }
    }
  }

  /** With provenance, each asked tier's row holds how many hits it gave and how many results it was first to give. */
  lemma ProvenanceIsExact(out: UnifiedRecall, answers: Answers, topK: nat, kinds: seq<Kind>, kind: Kind)
    requires IsRecall(out, answers, topK, true, kinds)
    ensures kind in out.perTier.value <==> kind in kinds
    ensures kind in kinds ==>
              && out.perTier.value[kind].considered == |AnswerOf(answers, kind)|
              && out.perTier.value[kind].returned == |PlacesFrom(out.results, answers, kind)|
  {
    var best := BestOf(AllHits(answers));
    var r :| IsRanking(r, best) && out.results == Shorter(topK, r);
    hide BestOf, AllHits, FromTier;
    forall i | 0 <= i < |out.results|
      ensures KeyOf(out.results[i]) in best && best[KeyOf(out.results[i])].result == out.results[i]
    {
      assert r[i] in r;
    }
    ReturnedCounts(out.results, answers, kind);
  }
}
