/** Duplicate detection: every pair of texts whose similarity reaches the
    threshold, highest similarity first. */
module DuplicateDetection {
  import opened Strings
  import opened Sorting
  import opened SimilarityPairs

  /** The threshold used when the caller gives none. */
  const DefaultThreshold: real := 0.95

  /** detectDuplicates: the nested loops over i < j record each pair that
      scores at least the threshold; the records are then sorted by score. */
  method DetectDuplicates(texts: seq<string>, sim: Score, threshold: real) returns (r: seq<PairRecord>)
    ensures r == SortDesc(Pairs(texts, sim, AtLeast(threshold)), Key)
    ensures SortedDesc(r, Key)
    ensures forall k :: 0 <= k < |r| ==>
              r[k].text1Index < r[k].text2Index < |texts| && r[k].similarity >= threshold
              && r[k] == Record(texts, sim, r[k].text1Index, r[k].text2Index)
    ensures forall a, b :: 0 <= a < b < |texts| ==>
              multiset(r)[Record(texts, sim, a, b)] == if sim(a, b) >= threshold then 1 else 0
    ensures 2 * |r| <= |texts| * (|texts| - 1)
  {
    var f := AtLeast(threshold);
    var duplicates := CollectPairs(texts, sim, f);
    r := SortDesc(duplicates, Key);
    SortedPairs(texts, sim, f);
  }
}
