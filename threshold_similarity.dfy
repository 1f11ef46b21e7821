/** The threshold comparison: keep the texts whose score against the query
    reaches the threshold, best first. */
module ThresholdSimilarity {
  import opened Strings
  import opened Sorting
  import opened TopKSimilarity

  datatype ThresholdResponse = ThresholdResponse(
    query: string, threshold: real, totalTexts: nat, filteredCount: nat, results: seq<Scored>)

  /** The value used when the request gives no threshold. */
  const DefaultThreshold: real := 0.7

  /** The filter condition: the score reaches the threshold. */
  function ReachesThreshold(threshold: real): Scored -> bool {
    (x: Scored) => x.similarity >= threshold
  }

  /** findSimilarTexts: filter by score >= threshold, then sort by score,
      highest first; the sort is the stable one, so equal scores keep the
      input order. */
  function FindSimilarTexts(query: string, texts: seq<string>, score: nat -> real, threshold: real): (r: ThresholdResponse)
    ensures r.query == query && r.threshold == threshold && r.totalTexts == |texts|
    ensures r.results == SortDesc(Filter(AllResults(texts, score), ReachesThreshold(threshold)), SimilarityOf)
    ensures r.filteredCount == |r.results| <= |texts|
    ensures SortedDesc(r.results, SimilarityOf)
    ensures forall x :: x in r.results <==> x in AllResults(texts, score) && x.similarity >= threshold
  {
    var all := AllResults(texts, score);
    var kept := Filter(all, ReachesThreshold(threshold));
    var sorted := SortDesc(kept, SimilarityOf);
    forall x ensures x in sorted <==> x in all && x.similarity >= threshold {
      SortDescSameElements(kept, SimilarityOf, x);
      if x in all && x.similarity >= threshold {
        var i :| 0 <= i < |all| && all[i] == x;
      }
    }
    ThresholdResponse(query, threshold, |texts|, |sorted|, sorted)
  }

  /** Each result occurs as often as among the scored texts when its score
      reaches the threshold, and not at all otherwise: repeated texts are
      all reported and all counted. */
  lemma ResultMultiplicity(query: string, texts: seq<string>, score: nat -> real, threshold: real, x: Scored)
    ensures var r := FindSimilarTexts(query, texts, score, threshold);
            multiset(r.results)[x] == if x.similarity >= threshold then multiset(AllResults(texts, score))[x] else 0
  {
    FilterMultiset(AllResults(texts, score), ReachesThreshold(threshold));
  }

  /** Two equal texts with equal scores at the threshold are both reported. */
  lemma RepeatedTextCountedTwice(query: string, texts: seq<string>, score: nat -> real, threshold: real)
    requires |texts| == 2 && texts[0] == texts[1] && score(0) == score(1) >= threshold
    ensures FindSimilarTexts(query, texts, score, threshold).filteredCount == 2
  {
    var all := AllResults(texts, score);
    assert all == [all[0], all[0]];
    var kept := Filter(all, ReachesThreshold(threshold));
    FilterKeepsAll(all, ReachesThreshold(threshold));
    assert |kept| == 2;
  }

  /** Text i is reported, with its own score, exactly when that score reaches
      the threshold. */
  lemma ReportedIffAtThreshold(query: string, texts: seq<string>, score: nat -> real, threshold: real, i: nat)
    requires i < |texts|
    ensures Scored(texts[i], score(i), score(i) * 100.0) in FindSimilarTexts(query, texts, score, threshold).results
            <==> score(i) >= threshold
  {
    assert AllResults(texts, score)[i] == Scored(texts[i], score(i), score(i) * 100.0);
  }

  /** Raising the threshold never brings in a text that a lower one dropped. */
  lemma ThresholdMonotone(query: string, texts: seq<string>, score: nat -> real, lo: real, hi: real, x: Scored)
    requires lo <= hi
    requires x in FindSimilarTexts(query, texts, score, hi).results
    ensures x in FindSimilarTexts(query, texts, score, lo).results
  {
  }

  /** A threshold at or below every score keeps every text. */
  lemma LowThresholdKeepsAll(query: string, texts: seq<string>, score: nat -> real, threshold: real, i: nat)
    requires i < |texts|
    requires forall j :: 0 <= j < |texts| ==> score(j) >= threshold
    ensures Scored(texts[i], score(i), score(i) * 100.0) in FindSimilarTexts(query, texts, score, threshold).results
  {
    ReportedIffAtThreshold(query, texts, score, threshold, i);
  }
}
