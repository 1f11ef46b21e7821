/** The pairwise comparison: every pair of texts with its similarity,
    highest first, with the most and the least similar pair picked out. */
module PairwiseSimilarity {
  import opened Wrappers
  import opened Strings
  import opened Sorting
  import opened SimilarityPairs

  /** The response map: the two counts, the sorted pairs, and the two keys
      that are set only when there is a first and a last pair. */
  datatype PairwiseResult = PairwiseResult(totalTexts: nat, totalPairs: nat, pairs: seq<PairRecord>,
                                           mostSimilar: Option<PairRecord>, leastSimilar: Option<PairRecord>)

  /** calculatePairwiseSimilarity: the nested loops record every i < j, the
      records are sorted by score, and the first and last become the most and
      least similar pair. */
  method CalculatePairwiseSimilarity(texts: seq<string>, sim: Score) returns (result: PairwiseResult)
    ensures result.totalTexts == |texts|
    ensures result.totalPairs == |result.pairs| && 2 * result.totalPairs == |texts| * (|texts| - 1)
    ensures result.pairs == SortDesc(Pairs(texts, sim, All), Key)
    ensures SortedDesc(result.pairs, Key)
    ensures forall a, b :: 0 <= a < b < |texts| ==> multiset(result.pairs)[Record(texts, sim, a, b)] == 1
    ensures forall k :: 0 <= k < |result.pairs| ==>
              result.pairs[k].text1Index < result.pairs[k].text2Index < |texts|
              && result.pairs[k] == Record(texts, sim, result.pairs[k].text1Index, result.pairs[k].text2Index)
    ensures result.pairs != [] <==> |texts| >= 2
    ensures result.mostSimilar == if result.pairs == [] then None else Some(result.pairs[0])
    ensures result.leastSimilar == if result.pairs == [] then None else Some(result.pairs[|result.pairs| - 1])
    ensures forall k :: 0 <= k < |result.pairs| ==>
              result.pairs[|result.pairs| - 1].similarity <= result.pairs[k].similarity <= result.pairs[0].similarity
  {
    var pairs := CollectPairs(texts, sim, All);
    var sortedPairs := SortDesc(pairs, Key);
    SortedPairs(texts, sim, All);
    result := PairwiseResult(|texts|, |pairs|, sortedPairs, None, None);
    if |sortedPairs| > 0 {
      result := result.(mostSimilar := Some(sortedPairs[0]));
    }
    if |sortedPairs| > 0 {
      result := result.(leastSimilar := Some(sortedPairs[|sortedPairs| - 1]));
    }
    PairCountPositive(|texts|, |sortedPairs|);
    SortedBounds(sortedPairs, Key);
  }

  /** n(n-1)/2 is positive exactly when there are two texts. */
  lemma PairCountPositive(n: nat, pairs: nat)
    requires 2 * pairs == n * (n - 1)
    ensures pairs > 0 <==> n >= 2
  {
    if n >= 2 {
      assert n * (n - 1) >= 2 * 1;
    }
  }
}
