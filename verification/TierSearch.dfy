/** One tier's ranked search (memory/engine_working.go, engine_episodic.go, engine_semantic.go). */
module TierSearch {
  import opened Types
  import opened Ordering
  import opened Merge
  import opened Recall
  import opened Pushdown

  /** The tier's full, uncut list: every admitted item with its score, once. */
  ghost predicate ScoredItems(full: seq<SearchResult>, items: Items, admits: Item -> bool,
                              query: Vector, score: (Vector, Item) -> real)
  {
    && DistinctKeys(full)
    && forall sr :: sr in full <==>
         sr.item.id in items && items[sr.item.id] == sr.item && admits(sr.item) && sr.score == score(query, sr.item)
  }

  function SearchLimit(topK: int): (k: nat)
    ensures k > 0
  {
    if topK <= 0 then 5 else topK
  }

  lemma BetterOrder()
    ensures StrictWeakOrder(Better)
  {
  }

  /** The result is a stored, admitted item with its score. */
  predicate Found(sr: SearchResult, items: Items, admits: Item -> bool, query: Vector, score: (Vector, Item) -> real)
  {
    sr.item.id in items && items[sr.item.id] == sr.item && admits(sr.item) && sr.score == score(query, sr.item)
  }

  /**
   * At most `n` results, each found once, by descending score. An admitted item that is not
   * among them scores no higher than any of them, and there are `n` of them.
   */
  ghost predicate SearchInFields(r: seq<SearchResult>, items: Items, admits: Item -> bool, query: Vector,
                                 score: (Vector, Item) -> real, n: nat)
  {
    && |r| <= n
    && (forall i :: 0 <= i < |r| ==> Found(r[i], items, admits, query, score))
    && (forall i, j :: 0 <= i < j < |r| ==> r[i].score >= r[j].score && r[i].item.id != r[j].item.id)
    && (forall sr :: Found(sr, items, admits, query, score) && sr !in r ==>
          |r| == n && forall i :: 0 <= i < n ==> r[i].score >= sr.score)
  }

  lemma CutInFields(r: seq<SearchResult>, full: seq<SearchResult>, items: Items, admits: Item -> bool, query: Vector,
                    score: (Vector, Item) -> real, n: nat)
    requires n > 0 && ScoredItems(full, items, admits, query, score) && IsCut(r, full, n)
    ensures SearchInFields(r, items, admits, query, score, n)
  {
    CutFacts(r, full, n);
    assert |r| <= n && forall i, j :: 0 <= i < j < |r| ==> r[i].score >= r[j].score by { CutDescends(r, full, n); }
    hide IsCut;
    assert forall sr :: sr in full <==> Found(sr, items, admits, query, score);
    hide ScoredItems;
    forall i | 0 <= i < |r|
      ensures Found(r[i], items, admits, query, score)
    {
      assert r[i] in r && r[i] in full;
    }
    forall i, j | 0 <= i < j < |r|
      ensures r[i].item.id != r[j].item.id
    {
      assert KeyOf(r[i]) != KeyOf(r[j]);
    }
    hide DistinctKeys, Found;
    forall sr, i | sr in full && sr !in r && 0 <= i < |r|
      ensures r[i].score >= sr.score
    {
      assert r[i] in r;
    }
  }

  lemma CutDescends(r: seq<SearchResult>, full: seq<SearchResult>, n: nat)
    requires IsCut(r, full, n)
    ensures |r| <= n && forall i, j :: 0 <= i < j < |r| ==> r[i].score >= r[j].score
  {
    var s :| Permutation(s, full) && Sorted(s, Better) && r == Shorter(n, s);
    assert forall i, j :: 0 <= i < j < |s| ==> !Better(s[j], s[i]);
  }

  /**
   * Score every admitted item, sort, cut. `admits` leaves out disabled items (and, in the
   * semantic tier, items without a wanted tag); `score` is the tier's own formula.
   */
  method Search(items: Items, blank: bool, query: Result<Vector>, admits: Item -> bool,
                score: (Vector, Item) -> real, topK: int)
    returns (r: Result<seq<SearchResult>>)
    requires WellFormed(items)
    ensures r.Err? <==> blank || query.Err?
    ensures r.Ok? ==> exists full ::
                        && ScoredItems(full, items, admits, query.value, score)
                        && IsCut(r.value, full, SearchLimit(topK))
    ensures r.Ok? ==> SearchInFields(r.value, items, admits, query.value, score, if topK <= 0 then 5 else topK)
  {
    if blank {
      return Err("empty query");
    }
    if query.Err? {
      return Err(query.error);
    }
    var full := ScoreAll(items, admits, query.value, score);
    assert StrictWeakOrder(Better) by { BetterOrder(); }
    var out := Sort(full, Better);
    ghost var s := out;
    if |out| > SearchLimit(topK) {
      out := out[..SearchLimit(topK)];
    }
    assert out == Shorter(SearchLimit(topK), s);
    CutInFields(out, full, items, admits, query.value, score, SearchLimit(topK));
    hide ScoredItems, SearchInFields, Sorted;
    r := Ok(out);
  }

  method ScoreAll(items: Items, admits: Item -> bool, query: Vector, score: (Vector, Item) -> real)
    returns (out: seq<SearchResult>)
    requires WellFormed(items)
    ensures ScoredItems(out, items, admits, query, score)
  {
    out := [];
    var todo := items.Keys;
    while todo != {}
      invariant todo <= items.Keys
      invariant DistinctKeys(out)
      invariant forall sr :: sr in out <==>
                  && sr.item.id in items && sr.item.id !in todo && items[sr.item.id] == sr.item
                  && admits(sr.item) && sr.score == score(query, sr.item)
      decreases todo
    {
      var id :| id in todo;
      var it := items[id];
      if admits(it) {
        out := out + [SearchResult(it, score(query, it))];
      }
      todo := todo - {id};
    }
  }

  // ----- Recall over searched tiers -----

  /** One tier as a query sees it. */
  datatype View = View(items: Items, admits: Item -> bool, query: Vector, score: (Vector, Item) -> real)

  /** Some tier holds the item, admits it and scores it so. */
  ghost predicate Candidate(views: map<Kind, View>, kind: Kind, sr: SearchResult)
  {
    && kind in views
    && var v := views[kind];
    && sr.item.id in v.items && v.items[sr.item.id] == sr.item
    && v.admits(sr.item) && sr.score == v.score(v.query, sr.item)
  }

  ghost predicate IsCandidate(views: map<Kind, View>, sr: SearchResult)
  {
    exists k :: Candidate(views, k, sr)
  }

  /** Each tier was searched with its budget as the limit; `full` holds the uncut lists. */
  ghost predicate Searched(answers: Answers, full: Answers, views: map<Kind, View>, opts: RecallOptions)
  {
    && answers.Keys == full.Keys == views.Keys
    && forall k :: k in views ==>
         && ScoredItems(full[k], views[k].items, views[k].admits, views[k].query, views[k].score)
         && IsCut(answers[k], full[k], SearchLimit(Budget(opts, k)))
  }

  ghost function BudgetsOf(full: Answers, opts: RecallOptions): map<Kind, nat>
  {
    map k | k in full :: Budget(opts, k)
  }

  lemma SearchedEnough(answers: Answers, full: Answers, views: map<Kind, View>, opts: RecallOptions)
    requires Searched(answers, full, views, opts) && forall k :: k in views ==> Budget(opts, k) >= TopK(opts)
    ensures CutAnswers(answers, full, BudgetsOf(full, opts), TopK(opts))
  {
    hide IsCut, DistinctKeys;
  }

  lemma CandidateIsListed(answers: Answers, full: Answers, views: map<Kind, View>, opts: RecallOptions,
                          kind: Kind, sr: SearchResult)
    requires Searched(answers, full, views, opts)
    ensures Candidate(views, kind, sr) <==> kind in full && sr in full[kind]
  {
    hide IsCut, DistinctKeys;
  }

  /** `results` has an entry for the key of `sr` that scores no less, or is full of entries that score no less. */
  ghost predicate Covers(results: seq<SearchResult>, topK: nat, sr: SearchResult)
  {
    || (exists i :: 0 <= i < |results| && KeyOf(results[i]) == KeyOf(sr) && results[i].score >= sr.score)
    || (|results| == topK && forall i :: 0 <= i < |results| ==> results[i].score >= sr.score)
  }

  /** An admitted item a tier gave is covered by the ranking of what the tiers gave. */
  lemma GivenIsCovered(answers: Answers, r: seq<SearchResult>, topK: nat, kind: Kind, sr: SearchResult)
    requires IsRanking(r, BestOf(AllHits(answers))) && kind in answers && sr in answers[kind]
    ensures Covers(Shorter(topK, r), topK, sr)
  {
    var best := BestOf(AllHits(answers));
    BestIsWellKeyed(AllHits(answers));
    BestIsAtLeast(answers, kind, sr);
    var top := best[KeyOf(sr)].result;
    assert top in r;
    var p :| 0 <= p < |r| && r[p] == top;
    if p < topK {
      assert Shorter(topK, r)[p] == top;
    } else {
      hide IsRanking;
      forall i | 0 <= i < topK
        ensures Shorter(topK, r)[i].score >= sr.score
      {
        RankedDescending(r, best, i, p);
      }
    }
  }

  /** An admitted item a tier did not give is covered by the ones it gave instead. */
  lemma DroppedIsCovered(answers: Answers, full: Answers, budgets: map<Kind, nat>, r: seq<SearchResult>, topK: nat,
                         kind: Kind, sr: SearchResult)
    requires topK > 0 && CutAnswers(answers, full, budgets, topK) && IsRanking(r, BestOf(AllHits(answers)))
    requires kind in full && sr in full[kind] && sr !in answers[kind]
    ensures Covers(Shorter(topK, r), topK, sr)
  {
    hide CutAnswers, IsRanking;
    var keys := DroppedHit(answers, full, budgets, topK, kind, sr);
    RankedAt(answers, r, keys, topK - 1);
    forall i | 0 <= i < topK
      ensures Shorter(topK, r)[i].score >= sr.score
    {
      RankedDescending(r, BestOf(AllHits(answers)), i, topK - 1);
    }
  }

  /**
   * Recall over tiers that were searched with budgets of at least TopK returns the best TopK of all
   * admitted items: every result is one, with the score its tier gives it, in descending order and
   * without repeats; and every admitted item of every tier is covered by the results.
   */
  lemma RecallReturnsBest(out: UnifiedRecall, answers: Answers, full: Answers, views: map<Kind, View>,
                          opts: RecallOptions, kinds: seq<Kind>, kind: Kind, sr: SearchResult)
    requires Searched(answers, full, views, opts) && forall k :: k in views ==> Budget(opts, k) >= TopK(opts)
    requires IsRecall(out, answers, TopK(opts), opts.includeProvenance, kinds)
    ensures forall i :: 0 <= i < |out.results| ==> IsCandidate(views, out.results[i])
    ensures Sorted(out.results, Outranks) && DistinctKeys(out.results) && |out.results| <= TopK(opts)
    ensures Candidate(views, kind, sr) ==> Covers(out.results, TopK(opts), sr)
  {
    var topK, budgets := TopK(opts), BudgetsOf(full, opts);
    var r :| IsRanking(r, BestOf(AllHits(answers))) && out.results == Shorter(topK, r);
    hide *;
    SearchedEnough(answers, full, views, opts);
    ResultsInOrder(answers, r, topK);
    forall i | 0 <= i < |out.results|
      ensures IsCandidate(views, out.results[i])
    {
      var k := ResultIsCandidate(answers, full, budgets, topK, r, i);
      CandidateIsListed(answers, full, views, opts, k, r[i]);
      AnyTier(views, k, r[i]);
    }
    if Candidate(views, kind, sr) {
      CandidateIsListed(answers, full, views, opts, kind, sr);
      AdmittedIsCovered(answers, full, budgets, r, topK, kind, sr);
    }
  }

  lemma AnyTier(views: map<Kind, View>, kind: Kind, sr: SearchResult)
    requires Candidate(views, kind, sr)
    ensures IsCandidate(views, sr)
  {
  }

  lemma AdmittedIsCovered(answers: Answers, full: Answers, budgets: map<Kind, nat>, r: seq<SearchResult>, topK: nat,
                          kind: Kind, sr: SearchResult)
    requires topK > 0 && CutAnswers(answers, full, budgets, topK) && IsRanking(r, BestOf(AllHits(answers)))
    requires kind in full && sr in full[kind]
    ensures Covers(Shorter(topK, r), topK, sr)
  {
    hide *;
    SameTiers(answers, full, budgets, topK);
    if sr in answers[kind] {
      GivenIsCovered(answers, r, topK, kind, sr);
    } else {
      DroppedIsCovered(answers, full, budgets, r, topK, kind, sr);
    }
  }

  lemma ResultsInOrder(answers: Answers, r: seq<SearchResult>, topK: nat)
    requires IsRanking(r, BestOf(AllHits(answers)))
    ensures var results := Shorter(topK, r);
            && |results| <= topK && |results| <= |r| && results == r[..|results|]
            && Sorted(results, Outranks) && DistinctKeys(results)
  {
  }

  lemma SameTiers(answers: Answers, full: Answers, budgets: map<Kind, nat>, topK: nat)
    requires CutAnswers(answers, full, budgets, topK)
    ensures answers.Keys == full.Keys
  {
  }

  lemma ResultIsCandidate(answers: Answers, full: Answers, budgets: map<Kind, nat>, topK: nat,
                          r: seq<SearchResult>, i: nat) returns (k: Kind)
    requires CutAnswers(answers, full, budgets, topK) && IsRanking(r, BestOf(AllHits(answers))) && i < |r|
    ensures k in full && r[i] in full[k]
  {
    assert r[i] in r;
    BestComesFromAnswers(answers, KeyOf(r[i]));
    var hit := BestOf(AllHits(answers))[KeyOf(r[i])];
    CutHit(answers, full, budgets, topK, hit.kind, hit.result);
    k := hit.kind;
  }
}
