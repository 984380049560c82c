/** Cross-tier recall and its older facades (memory/recall_engine.go, unified_search.go, parallel_search.go). */
module Recall {
  import opened Types
  import opened Ordering
  import opened Merge

  /** What a tier's search came back with. */
  datatype Answer = Hits(results: seq<SearchResult>) | Disabled | Failed(error: string)

  /** One message on the fan-out channel. */
  datatype Arrival = Arrival(kind: Kind, answer: Answer)

  datatype RecallOptions = RecallOptions(topK: int, tiers: bv8, budgets: map<Kind, int>, includeProvenance: bool)

  datatype TierStats = TierStats(considered: nat, returned: nat)

  datatype UnifiedRecall = UnifiedRecall(
    results: seq<SearchResult>,
    perTier: Option<map<Kind, TierStats>>,
    totalDropped: int)

  // ----- Normalised options -----

  function TopK(opts: RecallOptions): (k: nat)
    ensures k > 0
  {
    if opts.topK <= 0 then 10 else opts.topK
  }

  function Budget(opts: RecallOptions, kind: Kind): (b: nat)
    ensures b > 0
  {
    if kind in opts.budgets && opts.budgets[kind] > 0 then opts.budgets[kind] else TopK(opts)
  }

  /** A positive budget is used as it is; otherwise the tier is asked for as many results as are returned. */
  lemma BudgetIs(opts: RecallOptions, kind: Kind)
    ensures kind in opts.budgets && opts.budgets[kind] > 0 ==> Budget(opts, kind) == opts.budgets[kind]
    ensures kind !in opts.budgets || opts.budgets[kind] <= 0 ==>
              Budget(opts, kind) == if opts.topK <= 0 then 10 else opts.topK
  {
  }

  function Bit(kind: Kind): bv8
  {
    match kind
    case Working => 1
    case Episodic => 2
    case Semantic => 4
  }

  predicate Selected(opts: RecallOptions, kind: Kind)
  {
    opts.tiers == 0 || opts.tiers & Bit(kind) != 0
  }

  /** The selected and active tiers, in canonical order. */
  method Participating(opts: RecallOptions, active: set<Kind>) returns (kinds: seq<Kind>)
    ensures Distinct(kinds)
    ensures forall k :: k in kinds <==> Selected(opts, k) && k in active
    ensures kinds == AskedTiers(opts.tiers, active)
  {
    kinds := [];
    for i := 0 to |KINDS|
      invariant kinds == AskedUpTo(opts, active, i)
      invariant forall k :: k in kinds <==> k in KINDS[..i] && Selected(opts, k) && k in active
      invariant Distinct(kinds)
    {
      assert KINDS[..i + 1] == KINDS[..i] + [KINDS[i]];
      assert KINDS[i] !in KINDS[..i];
      if Selected(opts, KINDS[i]) && KINDS[i] in active {
        kinds := kinds + [KINDS[i]];
      }
    }
    AskedInAll(opts, active);
    assert KINDS[..|KINDS|] == KINDS;
    forall k: Kind ensures k in KINDS { EveryKind(k); }
  }

  function AskedUpTo(opts: RecallOptions, active: set<Kind>, i: nat): seq<Kind>
    requires i <= |KINDS|
  {
    if i == 0 then []
    else
      var kind := KINDS[i - 1];
      AskedUpTo(opts, active, i - 1) + (if Selected(opts, kind) && kind in active then [kind] else [])
  }

  // ----- Masks by their values -----

  /** The tier's value is set in the mask: 1 for working, 2 for episodic, 4 for semantic; no value at all means all. */
  predicate InMask(mask: bv8, kind: Kind)
  {
    || mask == 0
    || (kind == Working && mask & 1 == 1)
    || (kind == Episodic && mask & 2 == 2)
    || (kind == Semantic && mask & 4 == 4)
  }

  function AskedTiers(mask: bv8, active: set<Kind>): seq<Kind>
  {
    (if InMask(mask, Working) && Working in active then [Working] else [])
    + (if InMask(mask, Episodic) && Episodic in active then [Episodic] else [])
    + (if InMask(mask, Semantic) && Semantic in active then [Semantic] else [])
  }

  lemma SelectedIff(opts: RecallOptions, kind: Kind)
    ensures Selected(opts, kind) <==> InMask(opts.tiers, kind)
  {
    OneBit(opts.tiers);
  }

  lemma OneBit(mask: bv8)
    ensures mask & 1 != 0 <==> mask & 1 == 1
    ensures mask & 2 != 0 <==> mask & 2 == 2
    ensures mask & 4 != 0 <==> mask & 4 == 4
  {
  }

  lemma AskedInAll(opts: RecallOptions, active: set<Kind>)
    ensures AskedUpTo(opts, active, |KINDS|) == AskedTiers(opts.tiers, active)
  {
    SelectedIff(opts, Working);
    SelectedIff(opts, Episodic);
    SelectedIff(opts, Semantic);
    hide Selected, InMask;
    assert AskedUpTo(opts, active, 1) == if Selected(opts, Working) && Working in active then [Working] else [];
    assert AskedUpTo(opts, active, 2) ==
           AskedUpTo(opts, active, 1) + if Selected(opts, Episodic) && Episodic in active then [Episodic] else [];
  }

  /** Each mask value asks its own tier; no mask and the full mask ask all. */
  lemma MasksSelectTiers()
    ensures var all := {Working, Episodic, Semantic};
            && AskedTiers(1, all) == [Working] && AskedTiers(2, all) == [Episodic] && AskedTiers(4, all) == [Semantic]
            && AskedTiers(0, all) == AskedTiers(7, all) == [Working, Episodic, Semantic]
  {
  }

  lemma AskedIff(mask: bv8, active: set<Kind>, kind: Kind)
    ensures kind in AskedTiers(mask, active) <==> InMask(mask, kind) && kind in active
  {
    hide InMask;
  }

  /** A union of masks asks the tiers either of them asks. */
  lemma UnionOfMasks(a: bv8, b: bv8, active: set<Kind>, kind: Kind)
    requires a != 0 && b != 0
    ensures kind in AskedTiers(a | b, active) <==> kind in AskedTiers(a, active) || kind in AskedTiers(b, active)
  {
    AskedIff(a, active, kind);
    AskedIff(b, active, kind);
    AskedIff(a | b, active, kind);
    hide AskedTiers;
    BitsOfUnion(a, b);
  }

  lemma BitsOfUnion(a: bv8, b: bv8)
    ensures (a | b) & 1 == (a & 1) | (b & 1) && (a | b) & 2 == (a & 2) | (b & 2) && (a | b) & 4 == (a & 4) | (b & 4)
    ensures a != 0 ==> a | b != 0
  {
  }

  // ----- Draining the channel -----

  /** One message from each tier that was asked, in any order. */
  ghost predicate OneEach(arrivals: seq<Arrival>, asked: set<Kind>)
  {
    && (forall i, j :: 0 <= i < j < |arrivals| ==> arrivals[i].kind != arrivals[j].kind)
    && (forall k :: k in asked <==> exists i :: 0 <= i < |arrivals| && arrivals[i].kind == k)
  }

  ghost predicate AnyFailed(arrivals: seq<Arrival>)
  {
    exists a :: a in arrivals && a.answer.Failed?
  }

  /** The answers received, whatever their order of arrival. */
  ghost predicate Received(answers: Answers, arrivals: seq<Arrival>)
  {
    forall k, rs :: k in answers && answers[k] == rs <==> Arrival(k, Hits(rs)) in arrivals
  }

  method Drain(arrivals: seq<Arrival>) returns (r: Result<Answers>)
    requires forall i, j :: 0 <= i < j < |arrivals| ==> arrivals[i].kind != arrivals[j].kind
    ensures r.Err? <==> AnyFailed(arrivals)
    ensures r.Ok? ==> Received(r.value, arrivals)
  {
    var perKind: Answers := map[];
    for i := 0 to |arrivals|
      invariant Received(perKind, arrivals[..i])
      invariant !AnyFailed(arrivals[..i])
    {
      var got := arrivals[i];
      assert arrivals[..i + 1] == arrivals[..i] + [got];
      match got.answer
      case Disabled =>
      case Failed(e) =>
        assert got in arrivals;
        return Err(e);
      case Hits(rs) =>
        ReceiveNext(perKind, arrivals[..i], got);
        perKind := perKind[got.kind := rs];
    }
    assert arrivals[..|arrivals|] == arrivals;
    r := Ok(perKind);
  }

  lemma ReceiveNext(answers: Answers, arrivals: seq<Arrival>, got: Arrival)
    requires Received(answers, arrivals) && got.answer.Hits?
    requires forall a :: a in arrivals ==> a.kind != got.kind
    ensures Received(answers[got.kind := got.answer.results], arrivals + [got])
  {
    var answers' := answers[got.kind := got.answer.results];
    forall k, rs
      ensures k in answers' && answers'[k] == rs <==> Arrival(k, Hits(rs)) in arrivals + [got]
    {
      assert k != got.kind ==> (k in answers && answers[k] == rs <==> Arrival(k, Hits(rs)) in arrivals);
    }
  }

  lemma AnsweredWereAsked(answers: Answers, arrivals: seq<Arrival>, asked: set<Kind>)
    requires Received(answers, arrivals) && OneEach(arrivals, asked)
    ensures answers.Keys <= asked
  {
    forall k | k in answers
      ensures k in asked
    {
      assert Arrival(k, Hits(answers[k])) in arrivals;
    }
  }

  // ----- Recall -----

  function Shorter(k: nat, r: seq<SearchResult>): seq<SearchResult>
  {
    if |r| > k then r[..k] else r
  }

  /** How many results came from a tier. */
  function FromTier(results: seq<SearchResult>, best: Best, kind: Kind): nat
  {
    if results == [] then 0
    else
      var k := KeyOf(results[|results| - 1]);
      FromTier(results[..|results| - 1], best, kind) + (if k in best && best[k].kind == kind then 1 else 0)
  }

  ghost predicate IsProvenance(perTier: map<Kind, TierStats>, kinds: seq<Kind>, answers: Answers,
                               results: seq<SearchResult>, best: Best)
  {
    && (forall k :: k in perTier <==> k in kinds)
    && forall k :: k in perTier ==>
         perTier[k] == TierStats(|AnswerOf(answers, k)|, FromTier(results, best, k))
  }

  /** What a recall over these answers may return: the order among exact ties is open, nothing else is. */
  ghost predicate IsRecall(out: UnifiedRecall, answers: Answers, topK: nat, provenance: bool, kinds: seq<Kind>)
  {
    var best := BestOf(AllHits(answers));
    && (exists r :: IsRanking(r, best) && out.results == Shorter(topK, r))
    && out.totalDropped == |AllHits(answers)| - |out.results|
    && (out.perTier.Some? <==> provenance)
    && (provenance ==> IsProvenance(out.perTier.value, kinds, answers, out.results, best))
  }

  // ----- What a recall returns, in the results' own fields -----

  /** A tier in the mask, and active, gave this result. */
  ghost predicate GivenByMask(sr: SearchResult, arrivals: seq<Arrival>, mask: bv8, active: set<Kind>)
  {
    exists a :: a in arrivals && a.answer.Hits? && sr in a.answer.results && InMask(mask, a.kind) && a.kind in active
  }

  /** Its ID and content are returned with at least its score, or the list is full of results that rank no lower. */
  ghost predicate Represented(sr: SearchResult, results: seq<SearchResult>, n: nat)
  {
    || (exists i :: 0 <= i < |results| && results[i].item.id == sr.item.id
                    && results[i].item.content == sr.item.content && results[i].score >= sr.score)
    || (|results| == n && forall i :: 0 <= i < n ==>
          || results[i].score > sr.score
          || (results[i].score == sr.score && !StringLess(sr.item.id, results[i].item.id)))
  }

  /**
   * At most `n` results, by descending score and then ascending ID, no ID and content twice, each given by a tier
   * that was asked; and everything the tiers gave is represented.
   */
  ghost predicate RecallInFields(results: seq<SearchResult>, arrivals: seq<Arrival>, mask: bv8, active: set<Kind>,
                                 n: nat)
  {
    && |results| <= n
    && (forall i, j :: 0 <= i < j < |results| ==>
          var a, b := results[i], results[j];
          && (a.score > b.score || (a.score == b.score && !StringLess(b.item.id, a.item.id)))
          && (a.item.id != b.item.id || a.item.content != b.item.content))
    && (forall i :: 0 <= i < |results| ==> GivenByMask(results[i], arrivals, mask, active))
    && (forall a, sr :: a in arrivals && a.answer.Hits? && sr in a.answer.results ==> Represented(sr, results, n))
  }

  lemma RecallSatisfies(r: seq<SearchResult>, answers: Answers, arrivals: seq<Arrival>, mask: bv8, active: set<Kind>,
                        n: nat)
    requires Received(answers, arrivals) && OneEach(arrivals, set k | k in AskedTiers(mask, active))
    requires IsRanking(r, BestOf(AllHits(answers)))
    ensures RecallInFields(Shorter(n, r), arrivals, mask, active, n)
  {
    var results := Shorter(n, r);
    RankedInFields(r, BestOf(AllHits(answers)));
    hide BestOf, IsRanking, Received;
    forall i | 0 <= i < |results|
      ensures GivenByMask(results[i], arrivals, mask, active)
    {
      RankedWasGiven(r, answers, arrivals, mask, active, i);
    }
    forall a, sr | a in arrivals && a.answer.Hits? && sr in a.answer.results
      ensures Represented(sr, results, n)
    {
      GivenIsRepresented(r, answers, arrivals, a, sr, n);
    }
    hide GivenByMask, Represented, OneEach;
  }

  lemma RankedInFields(r: seq<SearchResult>, best: Best)
    requires IsRanking(r, best)
    ensures forall i, j :: 0 <= i < j < |r| ==>
              && (r[i].score > r[j].score || (r[i].score == r[j].score && !StringLess(r[j].item.id, r[i].item.id)))
              && (r[i].item.id != r[j].item.id || r[i].item.content != r[j].item.content)
  {
    forall i, j | 0 <= i < j < |r|
      ensures r[i].score > r[j].score || (r[i].score == r[j].score && !StringLess(r[j].item.id, r[i].item.id))
      ensures r[i].item.id != r[j].item.id || r[i].item.content != r[j].item.content
    {
      assert !Outranks(r[j], r[i]) && KeyOf(r[i]) != KeyOf(r[j]);
    }
  }

  lemma RankedWasGiven(r: seq<SearchResult>, answers: Answers, arrivals: seq<Arrival>, mask: bv8, active: set<Kind>,
                       i: nat)
    requires Received(answers, arrivals) && OneEach(arrivals, set k | k in AskedTiers(mask, active))
    requires IsRanking(r, BestOf(AllHits(answers))) && i < |r|
    ensures GivenByMask(r[i], arrivals, mask, active)
  {
    assert r[i] in r;
    var hit := BestOf(AllHits(answers))[KeyOf(r[i])];
    BestComesFromAnswers(answers, KeyOf(r[i]));
    assert Arrival(hit.kind, Hits(answers[hit.kind])) in arrivals;
    AnsweredWereAsked(answers, arrivals, set k | k in AskedTiers(mask, active));
    AskedIff(mask, active, hit.kind);
  }

  lemma GivenIsRepresented(r: seq<SearchResult>, answers: Answers, arrivals: seq<Arrival>, a: Arrival,
                           sr: SearchResult, n: nat)
    requires Received(answers, arrivals) && IsRanking(r, BestOf(AllHits(answers)))
    requires a in arrivals && a.answer.Hits? && sr in a.answer.results
    ensures Represented(sr, Shorter(n, r), n)
  {
    var best, results := BestOf(AllHits(answers)), Shorter(n, r);
    assert a == Arrival(a.kind, Hits(a.answer.results));
    BestIsAtLeast(answers, a.kind, sr);
    BestIsWellKeyed(AllHits(answers));
    RankedInFields(r, best);
    var top := best[KeyOf(sr)].result;
    assert top in r;
    var p :| 0 <= p < |r| && r[p] == top;
    hide IsRanking, Received, BestOf;
    if p < n {
      assert results[p] == top;
    } else {
      assert forall i :: 0 <= i < n ==> results[i] == r[i];
    }
  }

  // ----- The operation -----

  method Recall(opts: RecallOptions, active: set<Kind>, arrivals: seq<Arrival>) returns (r: Result<UnifiedRecall>)
    requires OneEach(arrivals, set k | k in AskedTiers(opts.tiers, active))
    ensures r.Err? <==> AnyFailed(arrivals)
    ensures r.Ok? ==> exists answers ::
                        && Received(answers, arrivals)
                        && IsRecall(r.value, answers, TopK(opts), opts.includeProvenance,
                                    AskedTiers(opts.tiers, active))
    ensures r.Ok? ==> RecallInFields(r.value.results, arrivals, opts.tiers, active,
                                     if opts.topK <= 0 then 10 else opts.topK)
  {
    var kinds := Participating(opts, active);
    var drained := Drain(arrivals);
    if drained.Err? {
      return Err(drained.error);
    }
    var answers := drained.value;
    AnsweredWereAsked(answers, arrivals, set k | k in AskedTiers(opts.tiers, active));
    hide AskedTiers;
    var out := MergeAnswers(answers, TopK(opts), opts.includeProvenance, kinds);
    ghost var ranking :| IsRanking(ranking, BestOf(AllHits(answers))) && out.results == Shorter(TopK(opts), ranking);
    RecallSatisfies(ranking, answers, arrivals, opts.tiers, active, TopK(opts));
    hide RecallInFields;
    r := Ok(out);
  }

  /** Merge, dedupe, sort, truncate, count. */
  method MergeAnswers(answers: Answers, topK: nat, provenance: bool, kinds: seq<Kind>) returns (out: UnifiedRecall)
    requires topK > 0 && forall k :: k in answers ==> k in kinds
    ensures IsRecall(out, answers, topK, provenance, kinds)
  {
    var best, considered, totalCandidates := Deduplicate(answers);
    BestIsWellKeyed(AllHits(answers));
    forall k | k in best ensures best[k].kind in kinds { BestComesFromAnswers(answers, k); }
    hide BestOf, AllHits, WellKeyed;
    var merged, origin := Materialize(best);
    hide Enumerates;
    merged := Rank(merged, best);
    ghost var ranking := merged;
    var totalDropped := totalCandidates - |merged|;
    if topK > 0 && |merged| > topK {
      totalDropped := totalDropped + (|merged| - topK);
      merged := merged[..topK];
    }
    var perTier := None;
    if provenance {
      var counted := CountOrigins(merged, origin, kinds, considered, answers, best);
      perTier := Some(counted);
    }
    out := UnifiedRecall(merged, perTier, totalDropped);
    assert out.results == Shorter(topK, ranking);
  }

  lemma ProvenanceNext(perTier: map<Kind, TierStats>, kinds: seq<Kind>, answers: Answers,
                       results: seq<SearchResult>, i: nat, best: Best)
    requires i < |results| && IsProvenance(perTier, kinds, answers, results[..i], best)
    requires forall k :: k in best ==> best[k].kind in kinds
    ensures var k := KeyOf(results[i]);
            if k in best then
              best[k].kind in perTier &&
              var st := perTier[best[k].kind];
              IsProvenance(perTier[best[k].kind := TierStats(st.considered, st.returned + 1)],
                           kinds, answers, results[..i + 1], best)
            else IsProvenance(perTier, kinds, answers, results[..i + 1], best)
  {
    assert results[..i + 1][..i] == results[..i];
  }

  method CountOrigins(results: seq<SearchResult>, origin: map<DedupeKey, Kind>, kinds: seq<Kind>,
                      considered: map<Kind, nat>, ghost answers: Answers, ghost best: Best)
    returns (perTier: map<Kind, TierStats>)
    requires forall k :: k in considered && considered[k] == |AnswerOf(answers, k)|
    requires origin.Keys == best.Keys && forall k :: k in best ==> origin[k] == best[k].kind
    requires forall k :: k in best ==> best[k].kind in kinds
    ensures IsProvenance(perTier, kinds, answers, results, best)
  {
    perTier := map k | k in kinds :: TierStats(considered[k], 0);
    for i := 0 to |results|
      invariant IsProvenance(perTier, kinds, answers, results[..i], best)
    {
      ProvenanceNext(perTier, kinds, answers, results, i, best);
      var k := KeyOf(results[i]);
      hide IsProvenance;
      if k in origin {
        var kind := origin[k];
        var st := perTier[kind];
        perTier := perTier[kind := TierStats(st.considered, st.returned + 1)];
      }
    }
    assert results[..|results|] == results;
  }
}
