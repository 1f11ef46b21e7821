/** The plain semantic search: score each document against the query, sort,
    keep the first topK. The score of document i is a given function. */
module SemanticSearch {
  import opened Wrappers
  import opened Sorting

  datatype SearchResult = SearchResult(text: string, similarity: real)

  /** The value used when the caller gives no topK. */
  const DefaultTopK: int := 3

  function SimilarityOf(r: SearchResult): real {
    r.similarity
  }

  /** The results in document order, as mapIndexed makes them. */
  function Scored(documents: seq<string>, score: nat -> real): (r: seq<SearchResult>)
    ensures |r| == |documents|
    ensures forall i :: 0 <= i < |documents| ==> r[i] == SearchResult(documents[i], score(i))
  {
    seq(|documents|, i requires 0 <= i < |documents| => SearchResult(documents[i], score(i)))
  }

  /** search: the topK best documents, highest score first; a negative topK
      makes take fail. */
  function Search(documents: seq<string>, score: nat -> real, topK: int): (r: Result<seq<SearchResult>>)
    ensures r.Err? <==> topK < 0
    ensures r.Err? ==> r.error == NegativeCountMessage(topK)
    ensures r.Ok? ==> |r.value| == if topK < |documents| then topK else |documents|
    ensures r.Ok? ==> SortedDesc(r.value, SimilarityOf)
    ensures r.Ok? ==> multiset(r.value) <= multiset(Scored(documents, score))
  {
    if topK < 0 then Err(NegativeCountMessage(topK))
    else Ok(TopK(Scored(documents, score), SimilarityOf, topK))
  }

  /** Every result is one of the documents with its own score. */
  lemma ResultsFromDocuments(documents: seq<string>, score: nat -> real, topK: nat)
    ensures forall k :: 0 <= k < |Search(documents, score, topK).value| ==>
              exists i :: 0 <= i < |documents| && Search(documents, score, topK).value[k] == SearchResult(documents[i], score(i))
  {
    var all := Scored(documents, score);
    var rs := Search(documents, score, topK).value;
    TopKMembers(all, SimilarityOf, topK);
    forall k | 0 <= k < |rs|
      ensures exists i :: 0 <= i < |documents| && rs[k] == SearchResult(documents[i], score(i))
    {
      var i :| 0 <= i < |all| && all[i] == rs[k];
    }
  }

  /** No document left out scores above the last result. */
  lemma OmittedNotAbove(documents: seq<string>, score: nat -> real, topK: nat, x: SearchResult)
    requires 0 < topK
    requires x in multiset(Scored(documents, score)) - multiset(Search(documents, score, topK).value)
    ensures var rs := Search(documents, score, topK).value;
            x.similarity <= rs[|rs| - 1].similarity
  {
    var all := Scored(documents, score);
    var rs := TopK(all, SimilarityOf, topK);
    assert Search(documents, score, topK).value == rs;
    TopKOmittedNotHigher(all, SimilarityOf, topK, x);
    assert SimilarityOf(rs[|rs| - 1]) == rs[|rs| - 1].similarity;
  }

  /** With the default topK and at least three documents, exactly three
      results come back. */
  lemma DefaultReturnsThree(documents: seq<string>, score: nat -> real)
    requires |documents| >= 3
    ensures |Search(documents, score, DefaultTopK).value| == 3
  {
  }
}
