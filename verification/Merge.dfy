/** Merging, deduplicating and ranking the tiers' answers (memory/recall_engine.go). */
module Merge {
  import opened Types
  import opened Ordering

  /** Results are merged when both ID and content agree. */
  datatype DedupeKey = DedupeKey(id: string, content: string)

  function KeyOf(sr: SearchResult): DedupeKey
  {
    DedupeKey(sr.item.id, sr.item.content)
  }

  /** One tier's answer to a query, tagged with the tier. */
  datatype Hit = Hit(kind: Kind, result: SearchResult)

  type Answers = map<Kind, seq<SearchResult>>

  function AnswerOf(answers: Answers, k: Kind): seq<SearchResult>
  {
    if k in answers then answers[k] else []
  }

  function Tagged(kind: Kind, results: seq<SearchResult>): (hits: seq<Hit>)
    ensures |hits| == |results|
    ensures forall i :: 0 <= i < |hits| ==> hits[i] == Hit(kind, results[i])
  {
    seq(|results|, i requires 0 <= i < |results| => Hit(kind, results[i]))
  }

  /** The hits of the first `i` tiers, in the canonical tier order. */
  function HitsUpTo(answers: Answers, i: nat): seq<Hit>
    requires i <= |KINDS|
  {
    if i == 0 then [] else HitsUpTo(answers, i - 1) + Tagged(KINDS[i - 1], AnswerOf(answers, KINDS[i - 1]))
  }

  function AllHits(answers: Answers): seq<Hit>
  {
    HitsUpTo(answers, |KINDS|)
  }

  // ----- Deduplication -----

  type Best = map<DedupeKey, Hit>

  function Consider(best: Best, hit: Hit): Best
  {
    var k := KeyOf(hit.result);
    if k !in best || hit.result.score > best[k].result.score then best[k := hit] else best
  }

  function BestOf(hits: seq<Hit>): Best
  {
    if hits == [] then map[] else Consider(BestOf(hits[..|hits| - 1]), hits[|hits| - 1])
  }

  /** `hits[i]` is the first hit to reach the highest score of its key. */
  ghost predicate FirstBest(hits: seq<Hit>, i: int)
  {
    && 0 <= i < |hits|
    && (forall j :: 0 <= j < |hits| && KeyOf(hits[j].result) == KeyOf(hits[i].result) ==>
          hits[j].result.score <= hits[i].result.score)
    && (forall j :: 0 <= j < i && KeyOf(hits[j].result) == KeyOf(hits[i].result) ==>
          hits[j].result.score < hits[i].result.score)
  }

  ghost predicate HasKey(hits: seq<Hit>, k: DedupeKey)
  {
    exists i :: 0 <= i < |hits| && KeyOf(hits[i].result) == k
  }

  /** Deduplication keeps, for every key that occurs, the first hit with that key's highest score. */
  lemma {:induction false} BestIsFirstMaximum(hits: seq<Hit>, k: DedupeKey)
    ensures k in BestOf(hits) <==> HasKey(hits, k)
    ensures k in BestOf(hits) ==>
              exists i :: FirstBest(hits, i) && hits[i] == BestOf(hits)[k] && KeyOf(hits[i].result) == k
  {
    if hits != [] {
      var init, last := hits[..|hits| - 1], hits[|hits| - 1];
      BestIsFirstMaximum(init, k);
      assert hits == init + [last];
      if KeyOf(last.result) == k {
        LastHit(hits, k);
      } else {
        OtherHit(hits, k);
      }
    }
  }

  lemma LastHit(hits: seq<Hit>, k: DedupeKey)
    requires hits != [] && KeyOf(hits[|hits| - 1].result) == k
    requires var init := hits[..|hits| - 1];
             && (k in BestOf(init) <==> HasKey(init, k))
             && (k in BestOf(init) ==> exists i :: FirstBest(init, i) && init[i] == BestOf(init)[k]
                                                   && KeyOf(init[i].result) == k)
    ensures HasKey(hits, k) && k in BestOf(hits)
    ensures exists i :: FirstBest(hits, i) && hits[i] == BestOf(hits)[k] && KeyOf(hits[i].result) == k
  {
    var n := |hits| - 1;
    var init, last := hits[..n], hits[n];
    assert BestOf(hits) == Consider(BestOf(init), last);
    hide BestOf;
    if k in BestOf(init) {
      var i :| FirstBest(init, i) && init[i] == BestOf(init)[k] && KeyOf(init[i].result) == k;
      LastAgainstBest(hits, i);
    } else {
      assert forall j :: 0 <= j < n ==> hits[j] == init[j] && KeyOf(init[j].result) != k;
      assert FirstBest(hits, n);
    }
  }

  /** The last hit takes over if it scores higher than the best before it, and only then. */
  lemma LastAgainstBest(hits: seq<Hit>, i: nat)
    requires hits != [] && FirstBest(hits[..|hits| - 1], i) && i < |hits| - 1
    requires KeyOf(hits[|hits| - 1].result) == KeyOf(hits[i].result)
    ensures FirstBest(hits, if hits[|hits| - 1].result.score > hits[i].result.score then |hits| - 1 else i)
  {
    assert forall j :: 0 <= j < |hits| - 1 ==> hits[j] == hits[..|hits| - 1][j];
  }

  lemma OtherHit(hits: seq<Hit>, k: DedupeKey)
    requires hits != [] && KeyOf(hits[|hits| - 1].result) != k
    requires var init := hits[..|hits| - 1];
             && (k in BestOf(init) <==> HasKey(init, k))
             && (k in BestOf(init) ==> exists i :: FirstBest(init, i) && init[i] == BestOf(init)[k]
                                                   && KeyOf(init[i].result) == k)
    ensures k in BestOf(hits) <==> HasKey(hits, k)
    ensures k in BestOf(hits) ==>
              exists i :: FirstBest(hits, i) && hits[i] == BestOf(hits)[k] && KeyOf(hits[i].result) == k
  {
    var n := |hits| - 1;
    var init, last := hits[..n], hits[n];
    assert BestOf(hits) == Consider(BestOf(init), last);
    hide BestOf;
    SameHits(hits, k);
    if k in BestOf(init) {
      var i :| FirstBest(init, i) && init[i] == BestOf(init)[k] && KeyOf(init[i].result) == k;
      OtherAgainstBest(hits, i);
    }
  }

  lemma SameHits(hits: seq<Hit>, k: DedupeKey)
    requires hits != [] && KeyOf(hits[|hits| - 1].result) != k
    ensures HasKey(hits, k) <==> HasKey(hits[..|hits| - 1], k)
  {
    var init := hits[..|hits| - 1];
    assert forall j :: 0 <= j < |init| ==> hits[j] == init[j];
    if HasKey(hits, k) {
      var i :| 0 <= i < |hits| && KeyOf(hits[i].result) == k;
      assert init[i] == hits[i];
    }
  }

  /** A hit with another key changes nothing. */
  lemma OtherAgainstBest(hits: seq<Hit>, i: nat)
    requires hits != [] && FirstBest(hits[..|hits| - 1], i) && i < |hits| - 1
    requires KeyOf(hits[|hits| - 1].result) != KeyOf(hits[i].result)
    ensures FirstBest(hits, i)
  {
    assert forall j :: 0 <= j < |hits| - 1 ==> hits[j] == hits[..|hits| - 1][j];
  }

  // ----- Ranking -----

  /** Higher score first; equal scores by ascending ID. */
  predicate Outranks(a: SearchResult, b: SearchResult)
  {
    a.score > b.score || (a.score == b.score && StringLess(a.item.id, b.item.id))
  }

  lemma RankingOrder()
    ensures StrictWeakOrder(Outranks)
  {
    StringOrder();
  }

  ghost predicate DistinctKeys(r: seq<SearchResult>)
  {
    forall i, j :: 0 <= i < j < |r| ==> KeyOf(r[i]) != KeyOf(r[j])
  }

  ghost predicate Enumerates(r: seq<SearchResult>, best: Best)
  {
    && DistinctKeys(r)
    && forall sr :: sr in r <==> KeyOf(sr) in best && best[KeyOf(sr)].result == sr
  }

  /** A sorted list of the deduplicated results; ties may come in any order. */
  ghost predicate IsRanking(r: seq<SearchResult>, best: Best)
  {
    Enumerates(r, best) && Sorted(r, Outranks)
  }

  lemma {:induction false} HitsComeFromAnswers(answers: Answers, i: nat, hit: Hit)
    requires i <= |KINDS|
    ensures hit in HitsUpTo(answers, i) <==> hit.kind in KINDS[..i] && hit.result in AnswerOf(answers, hit.kind)
  {
    if i > 0 {
      HitsComeFromAnswers(answers, i - 1, hit);
      assert KINDS[..i] == KINDS[..i - 1] + [KINDS[i - 1]];
      var tagged := Tagged(KINDS[i - 1], AnswerOf(answers, KINDS[i - 1]));
      if hit.kind == KINDS[i - 1] && hit.result in AnswerOf(answers, hit.kind) {
        var j :| 0 <= j < |tagged| && AnswerOf(answers, hit.kind)[j] == hit.result;
        assert tagged[j] == hit;
      }
    }
  }

  lemma AllHitsAre(answers: Answers, hit: Hit)
    ensures hit in AllHits(answers) <==> hit.result in AnswerOf(answers, hit.kind)
  {
    HitsComeFromAnswers(answers, |KINDS|, hit);
    EveryKind(hit.kind);
    assert KINDS[..|KINDS|] == KINDS;
  }

  /** Every deduplicated result was given by the tier it is attributed to. */
  lemma BestComesFromAnswers(answers: Answers, k: DedupeKey)
    requires k in BestOf(AllHits(answers))
    ensures var hit := BestOf(AllHits(answers))[k];
            hit.kind in answers && hit.result in answers[hit.kind] && KeyOf(hit.result) == k
  {
    BestIsFirstMaximum(AllHits(answers), k);
    AllHitsAre(answers, BestOf(AllHits(answers))[k]);
  }

  lemma BestIsAtLeast(answers: Answers, kind: Kind, sr: SearchResult)
    requires sr in AnswerOf(answers, kind)
    ensures var best := BestOf(AllHits(answers));
            KeyOf(sr) in best && sr.score <= best[KeyOf(sr)].result.score
  {
    var hits, key := AllHits(answers), KeyOf(sr);
    AllHitsAre(answers, Hit(kind, sr));
    var j :| 0 <= j < |hits| && hits[j] == Hit(kind, sr);
    assert HasKey(hits, key);
    BestIsFirstMaximum(hits, key);
  }

  // ----- The merge as the source computes it -----

  /** The number of hits of each of the first `i` tiers. */
  function CountsUpTo(answers: Answers, i: nat): map<Kind, nat>
    requires i <= |KINDS|
  {
    if i == 0 then map[] else CountsUpTo(answers, i - 1)[KINDS[i - 1] := |AnswerOf(answers, KINDS[i - 1])|]
  }

  lemma {:induction false} CountsAre(answers: Answers, i: nat)
    requires i <= |KINDS|
    ensures forall j :: 0 <= j < i ==> KINDS[j] in CountsUpTo(answers, i)
    ensures forall k :: k in CountsUpTo(answers, i) ==> CountsUpTo(answers, i)[k] == |AnswerOf(answers, k)|
  {
    if i > 0 {
      CountsAre(answers, i - 1);
    }
  }

  lemma CountsOfAll(answers: Answers, k: Kind)
    ensures k in CountsUpTo(answers, |KINDS|) && CountsUpTo(answers, |KINDS|)[k] == |AnswerOf(answers, k)|
  {
    CountsAre(answers, |KINDS|);
    EveryKind(k);
  }

  /** Tier by tier, hit by hit; also how many hits each tier gave. */
  method Deduplicate(answers: Answers) returns (best: Best, considered: map<Kind, nat>, total: nat)
    ensures best == BestOf(AllHits(answers)) && total == |AllHits(answers)|
    ensures forall k :: k in considered && considered[k] == |AnswerOf(answers, k)|
  {
    best, considered, total := map[], map[], 0;
    for i := 0 to |KINDS|
      invariant best == BestOf(HitsUpTo(answers, i)) && total == |HitsUpTo(answers, i)|
      invariant considered == CountsUpTo(answers, i)
    {
      HitsNext(answers, i);
      hide BestOf, HitsUpTo;
      var kind := KINDS[i];
      var results := AnswerOf(answers, kind);
      considered := considered[kind := |results|];
      total := total + |results|;
      best := ConsiderAll(best, kind, results, HitsUpTo(answers, i));
    }
    hide CountsUpTo;
    forall k: Kind
      ensures k in considered && considered[k] == |AnswerOf(answers, k)|
    {
      CountsOfAll(answers, k);
    }
  }

  lemma HitsNext(answers: Answers, i: nat)
    requires i < |KINDS|
    ensures HitsUpTo(answers, i + 1) == HitsUpTo(answers, i) + Tagged(KINDS[i], AnswerOf(answers, KINDS[i]))
  {
  }

  method ConsiderAll(before: Best, kind: Kind, results: seq<SearchResult>, ghost hits: seq<Hit>) returns (best: Best)
    requires before == BestOf(hits)
    ensures best == BestOf(hits + Tagged(kind, results))
  {
    hide BestOf;
    best := before;
    ghost var more, seen := Tagged(kind, results), hits;
    for i := 0 to |results|
      invariant seen == hits + more[..i]
      invariant best == BestOf(seen)
    {
      var sr := results[i];
      var k := KeyOf(sr);
      BestNext(seen, Hit(kind, sr));
      if k !in best || sr.score > best[k].result.score {
        best := best[k := Hit(kind, sr)];
      }
      seen := seen + [Hit(kind, sr)];
      assert more[..i + 1] == more[..i] + [more[i]];
    }
    assert more[..|results|] == more;
  }

  lemma BestNext(hits: seq<Hit>, hit: Hit)
    ensures BestOf(hits + [hit]) == Consider(BestOf(hits), hit)
  {
    assert (hits + [hit])[..|hits|] == hits;
  }

  ghost predicate WellKeyed(best: Best)
  {
    forall k :: k in best ==> KeyOf(best[k].result) == k
  }

  lemma {:induction false} BestIsWellKeyed(hits: seq<Hit>)
    ensures WellKeyed(BestOf(hits))
  {
    if hits != [] {
      BestIsWellKeyed(hits[..|hits| - 1]);
    }
  }

  /** The deduplicated results in the map's arbitrary order, and the tier each came from. */
  method Materialize(best: Best) returns (merged: seq<SearchResult>, origin: map<DedupeKey, Kind>)
    requires WellKeyed(best)
    ensures Enumerates(merged, best)
    ensures origin.Keys == best.Keys && forall k :: k in best ==> origin[k] == best[k].kind
  {
    merged, origin := [], map[];
    var todo := best.Keys;
    while todo != {}
      invariant todo <= best.Keys
      invariant DistinctKeys(merged)
      invariant forall sr :: sr in merged <==> KeyOf(sr) in best && KeyOf(sr) !in todo && best[KeyOf(sr)].result == sr
      invariant origin.Keys == best.Keys - todo && forall k :: k in origin ==> origin[k] == best[k].kind
      decreases todo
    {
      var k :| k in todo;
      merged := merged + [best[k].result];
      origin := origin[k := best[k].kind];
      todo := todo - {k};
    }
  }

  lemma PermutedEnumeration(r: seq<SearchResult>, merged: seq<SearchResult>, best: Best)
    requires Enumerates(merged, best) && Permutation(r, merged)
    ensures Enumerates(r, best)
  {
    SameElements(r, merged);
    assert Distinct(merged);
    DistinctPermutation(merged, r);
    forall i, j | 0 <= i < j < |r|
      ensures KeyOf(r[i]) != KeyOf(r[j])
    {
      assert r[i] in r && r[j] in r;
    }
  }

  method Rank(merged: seq<SearchResult>, ghost best: Best) returns (r: seq<SearchResult>)
    requires Enumerates(merged, best)
    ensures IsRanking(r, best)
  {
    assert StrictWeakOrder(Outranks) by { RankingOrder(); }
    r := Sort(merged, Outranks);
    PermutedEnumeration(r, merged, best);
  }
}
