/**
 * The serial and parallel fan-outs and the older unified search
 * (memory/manager.go, parallel_search.go, unified_search.go).
 */
module Facades {
  import opened Types
  import opened Merge
  import opened Recall
  import opened RecallProofs

  /** Exactly the tiers that answered, with their answers. */
  ghost predicate Gathered(out: Answers, reply: Kind -> Answer)
  {
    forall k :: (k in out <==> reply(k).Hits?) && (k in out ==> reply(k).results == out[k])
  }

  lemma GatheredUnique(out: Answers, out': Answers, reply: Kind -> Answer)
    requires Gathered(out, reply) && Gathered(out', reply)
    ensures out == out'
  {
  }

  /** Tier after tier; the first failure ends the search. */
  method SearchAll(reply: Kind -> Answer) returns (r: Result<Answers>)
    ensures r.Err? <==> exists k :: reply(k).Failed?
    ensures r.Ok? ==> Gathered(r.value, reply)
  {
    var out: Answers := map[];
    for i := 0 to |KINDS|
      invariant forall k :: k in KINDS[..i] ==> !reply(k).Failed?
      invariant forall k :: k in out <==> k in KINDS[..i] && reply(k).Hits?
      invariant forall k :: k in out ==> reply(k).results == out[k]
    {
      var kind := KINDS[i];
      assert KINDS[..i + 1] == KINDS[..i] + [kind];
      match reply(kind)
      case Disabled =>
      case Failed(e) =>
        return Err(e);
      case Hits(rs) =>
        out := out[kind := rs];
    }
    assert KINDS[..|KINDS|] == KINDS;
    forall k: Kind ensures k in KINDS { EveryKind(k); }
    r := Ok(out);
  }

  /**
   * One message per tier, in the order in which the searches finished. A tier that is not wired may
   * say so, as in the parallel search, or not be asked at all, as in recall.
   */
  ghost predicate Schedule(arrivals: seq<Arrival>, reply: Kind -> Answer)
  {
    && (forall i, j :: 0 <= i < j < |arrivals| ==> arrivals[i].kind != arrivals[j].kind)
    && (forall a :: a in arrivals ==> a.answer == reply(a.kind))
    && forall k :: !reply(k).Disabled? ==> Arrival(k, reply(k)) in arrivals
  }

  /** For every schedule, the parallel fan-out gathers what the serial one gathers. */
  method SearchAllParallel(arrivals: seq<Arrival>, ghost reply: Kind -> Answer) returns (r: Result<Answers>)
    requires Schedule(arrivals, reply)
    ensures r.Err? <==> exists k :: reply(k).Failed?
    ensures r.Ok? ==> Gathered(r.value, reply)
  {
    r := Drain(arrivals);
    if k :| reply(k).Failed? {
      assert Arrival(k, reply(k)) in arrivals;
    }
    if r.Ok? {
      ReceivedIsGathered(r.value, arrivals, reply);
    }
  }

  lemma ReceivedIsGathered(answers: Answers, arrivals: seq<Arrival>, reply: Kind -> Answer)
    requires Schedule(arrivals, reply) && Received(answers, arrivals)
    ensures Gathered(answers, reply)
  {
    forall k
      ensures k in answers <==> reply(k).Hits?
      ensures k in answers ==> reply(k).results == answers[k]
    {
      if reply(k).Hits? {
        assert Arrival(k, Hits(reply(k).results)) in arrivals;
      }
      if k in answers {
        assert Arrival(k, Hits(answers[k])) in arrivals;
      }
    }
  }

  // ----- Unified search -----

  /** The first `topK` of a ranking of the merged answers; all of it when topK is not positive. */
  ghost predicate IsUnified(out: seq<SearchResult>, answers: Answers, topK: int)
  {
    exists r :: IsRanking(r, BestOf(AllHits(answers))) && out == if topK > 0 then Shorter(topK, r) else r
  }

  function Results(hits: seq<Hit>): (rs: seq<SearchResult>)
    ensures |rs| == |hits|
  {
    seq(|hits|, i requires 0 <= i < |hits| => hits[i].result)
  }

  ghost function BestResults(best: Best): map<DedupeKey, SearchResult>
  {
    map k | k in best :: best[k].result
  }

  method SearchUnified(arrivals: seq<Arrival>, topK: int, ghost reply: Kind -> Answer)
    returns (r: Result<seq<SearchResult>>)
    requires Schedule(arrivals, reply)
    ensures r.Err? <==> exists k :: reply(k).Failed?
    ensures r.Ok? ==> exists answers :: Gathered(answers, reply) && IsUnified(r.value, answers, topK)
  {
    var perKind := SearchAllParallel(arrivals, reply);
    if perKind.Err? {
      return Err(perKind.error);
    }
    var out := UnifyAnswers(perKind.value, topK);
    r := Ok(out);
  }

  method UnifyAnswers(answers: Answers, topK: int) returns (out: seq<SearchResult>)
    ensures IsUnified(out, answers, topK)
  {
    ghost var hits := AllHits(answers);
    var merged := Concatenate(answers);
    var best := KeepBest(merged, hits);
    BestIsWellKeyed(hits);
    out := Values(best, BestOf(hits));
    out := Rank(out, BestOf(hits));
    ghost var r := out;
    if topK > 0 && |out| > topK {
      out := out[..topK];
    }
    assert out == if topK > 0 then Shorter(topK, r) else r;
  }

  method Concatenate(answers: Answers) returns (merged: seq<SearchResult>)
    ensures merged == Results(AllHits(answers))
  {
    merged := [];
    for i := 0 to |KINDS|
      invariant merged == Results(HitsUpTo(answers, i))
    {
      merged := merged + AnswerOf(answers, KINDS[i]);
    }
  }

  lemma BestResultsNext(hits: seq<Hit>, hit: Hit)
    ensures var best, sr := BestResults(BestOf(hits)), hit.result;
            BestResults(BestOf(hits + [hit])) ==
            if KeyOf(sr) !in best || sr.score > best[KeyOf(sr)].score then best[KeyOf(sr) := sr] else best
  {
    BestNext(hits, hit);
    hide BestOf;
  }

  method KeepBest(merged: seq<SearchResult>, ghost hits: seq<Hit>) returns (best: map<DedupeKey, SearchResult>)
    requires merged == Results(hits)
    ensures best == BestResults(BestOf(hits))
  {
    best := map[];
    assert BestResults(BestOf(hits[..0])) == map[];
    for i := 0 to |merged|
      invariant best == BestResults(BestOf(hits[..i]))
    {
      BestResultsNext(hits[..i], hits[i]);
      assert hits[..i] + [hits[i]] == hits[..i + 1];
      hide BestOf, BestResults;
      var sr := merged[i];
      var k := KeyOf(sr);
      if k !in best || sr.score > best[k].score {
        best := best[k := sr];
      }
    }
    assert hits[..|merged|] == hits;
  }

  method Values(best: map<DedupeKey, SearchResult>, ghost spec: Best) returns (out: seq<SearchResult>)
    requires best == BestResults(spec) && WellKeyed(spec)
    ensures Enumerates(out, spec)
  {
    out := [];
    var todo := best.Keys;
    while todo != {}
      invariant todo <= best.Keys
      invariant DistinctKeys(out)
      invariant forall sr :: sr in out <==> KeyOf(sr) in spec && KeyOf(sr) !in todo && spec[KeyOf(sr)].result == sr
      decreases todo
    {
      var k :| k in todo;
      out := out + [best[k]];
      todo := todo - {k};
    }
  }

  /** For positive topK, unified search and recall return the same scores and IDs, and the same results without ties. */
  lemma UnifiedAgreesWithRecall(reply: Kind -> Answer, arrivals: seq<Arrival>, answers: Answers, answers': Answers,
                                topK: nat, provenance: bool, kinds: seq<Kind>,
                                unified: seq<SearchResult>, out: UnifiedRecall)
    requires topK > 0 && Schedule(arrivals, reply)
    requires Gathered(answers, reply) && IsUnified(unified, answers, topK)
    requires Received(answers', arrivals) && IsRecall(out, answers', topK, provenance, kinds)
    ensures |unified| == |out.results|
    ensures forall i :: 0 <= i < |unified| ==>
              unified[i].score == out.results[i].score && unified[i].item.id == out.results[i].item.id
    ensures NoTies(BestOf(AllHits(answers))) ==> unified == out.results
  {
    ReceivedIsGathered(answers', arrivals, reply);
    GatheredUnique(answers, answers', reply);
    hide IsProvenance, Gathered, Received;
    var best := BestOf(AllHits(answers));
    var r :| IsRanking(r, best) && unified == Shorter(topK, r);
    var r' :| IsRanking(r', best) && out.results == Shorter(topK, r');
    SameLength(r, r', best);
    forall i | 0 <= i < |unified|
      ensures unified[i].score == out.results[i].score && unified[i].item.id == out.results[i].item.id
    {
      RankingsAgree(r, r', best, i);
    }
    if NoTies(best) {
      RankingUnique(r, r', best);
    }
  }

  /** Without a positive topK nothing is cut: there is one result for every ID and content the tiers gave. */
  lemma UnifiedUncut(out: seq<SearchResult>, answers: Answers, topK: int, kind: Kind, sr: SearchResult)
    requires topK <= 0 && IsUnified(out, answers, topK) && sr in AnswerOf(answers, kind)
    ensures exists i :: 0 <= i < |out| && out[i].item.id == sr.item.id && out[i].item.content == sr.item.content
                        && out[i].score >= sr.score
  {
    var best := BestOf(AllHits(answers));
    BestIsAtLeast(answers, kind, sr);
    BestIsWellKeyed(AllHits(answers));
    hide BestOf;
    var top := best[KeyOf(sr)].result;
    assert top in out;
    var i :| 0 <= i < |out| && out[i] == top;
  }
}
