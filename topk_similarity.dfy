/** The top-K comparison: score every text against the query, keep the K
    best, and number them from 1. The score of text i against the query is a
    given function; the embedding model is not modelled. */
module TopKSimilarity {
  import opened Wrappers
  import opened Sorting

  /** One text with its score against the query. */
  datatype Scored = Scored(text: string, similarity: real, similarityPercent: real)

  datatype Ranked = Ranked(rank: nat, text: string, similarity: real, similarityPercent: real)

  datatype TopKResponse = TopKResponse(query: string, topK: int, totalTexts: nat, results: seq<Ranked>)

  /** The value used when the request gives no topK. */
  const DefaultTopK: int := 5

  function SimilarityOf(s: Scored): real {
    s.similarity
  }

  /** The scored texts in input order, as mapIndexed makes them. */
  function AllResults(texts: seq<string>, score: nat -> real): (r: seq<Scored>)
    ensures |r| == |texts|
    ensures forall i :: 0 <= i < |texts| ==> r[i] == Scored(texts[i], score(i), score(i) * 100.0)
  {
    seq(|texts|, i requires 0 <= i < |texts| => Scored(texts[i], score(i), score(i) * 100.0))
  }

  /** The numbered entries: rank k + 1 for the k-th best. */
  function RankAll(best: seq<Scored>): (r: seq<Ranked>)
    ensures |r| == |best|
    ensures forall k :: 0 <= k < |r| ==>
              r[k] == Ranked(k + 1, best[k].text, best[k].similarity, best[k].similarityPercent)
  {
    seq(|best|, k requires 0 <= k < |best| => Ranked(k + 1, best[k].text, best[k].similarity, best[k].similarityPercent))
  }

  /** The entries without their rank. */
  function Unranked(r: seq<Ranked>): (s: seq<Scored>)
    ensures |s| == |r|
    ensures forall k :: 0 <= k < |r| ==> s[k] == Scored(r[k].text, r[k].similarity, r[k].similarityPercent)
  {
    seq(|r|, k requires 0 <= k < |r| => Scored(r[k].text, r[k].similarity, r[k].similarityPercent))
  }

  /** findTopKSimilar: a negative topK makes take fail; otherwise the K best
      texts, highest score first, ranked 1, 2, ... */
  function FindTopKSimilar(query: string, texts: seq<string>, score: nat -> real, topK: int): (r: Result<TopKResponse>)
    ensures r.Err? <==> topK < 0
    ensures r.Err? ==> r.error == NegativeCountMessage(topK)
    ensures r.Ok? ==> r.value.query == query && r.value.topK == topK && r.value.totalTexts == |texts|
    ensures r.Ok? ==> |r.value.results| == if topK < |texts| then topK else |texts|
    ensures r.Ok? ==> forall k :: 0 <= k < |r.value.results| ==> r.value.results[k].rank == k + 1
    ensures r.Ok? ==> forall k, m :: 0 <= k < m < |r.value.results| ==>
              r.value.results[k].similarity >= r.value.results[m].similarity
    ensures r.Ok? ==> Unranked(r.value.results) == TopK(AllResults(texts, score), SimilarityOf, topK)
  {
    if topK < 0 then Err(NegativeCountMessage(topK))
    else
      var best := TopK(AllResults(texts, score), SimilarityOf, topK);
      var ranked := RankAll(best);
      assert Unranked(ranked) == best;
      Ok(TopKResponse(query, topK, |texts|, ranked))
  }

  /** Every returned entry is one of the texts with its own score. */
  lemma TopKFromInput(query: string, texts: seq<string>, score: nat -> real, topK: nat)
    ensures var r := FindTopKSimilar(query, texts, score, topK).value;
            forall k :: 0 <= k < |r.results| ==>
              exists i :: 0 <= i < |texts| && Unranked(r.results)[k] == AllResults(texts, score)[i]
  {
    var all := AllResults(texts, score);
    TopKMembers(all, SimilarityOf, topK);
  }

  /** No text left out scores above the last one returned. */
  lemma TopKOmittedNotAbove(query: string, texts: seq<string>, score: nat -> real, topK: nat, x: Scored)
    requires 0 < topK
    requires x in multiset(AllResults(texts, score)) - multiset(Unranked(FindTopKSimilar(query, texts, score, topK).value.results))
    ensures var rs := FindTopKSimilar(query, texts, score, topK).value.results;
            x.similarity <= rs[|rs| - 1].similarity
  {
    var all := AllResults(texts, score);
    TopKOmittedNotHigher(all, SimilarityOf, topK, x);
  }
}
