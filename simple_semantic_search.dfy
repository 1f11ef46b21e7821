/** An in-memory semantic search: a list of documents with their embedding
    vectors, searched by cosine similarity against a query vector. The
    embedding model is not modelled: vectors are given to the operations. */
module SimpleSemanticSearch {
  import opened Wrappers
  import opened Sorting
  import opened SimilarityUtils

  datatype Document = Document(id: string, text: string, embedding: seq<real>)

  datatype SearchResult = SearchResult(id: string, text: string, similarity: real)

  /** The value used when the caller gives no topK. */
  const DefaultTopK: int := 5

  function SimilarityOf(r: SearchResult): real {
    r.similarity
  }

  /** Each stored document scored against the query vector, in storage order. */
  function Scored(documents: seq<Document>, query: seq<real>, sqrt: real -> real): (r: seq<SearchResult>)
    ensures |r| == |documents|
    ensures forall i :: 0 <= i < |documents| ==>
              r[i] == SearchResult(documents[i].id, documents[i].text, Cosine(query, documents[i].embedding, sqrt))
  {
    seq(|documents|, i requires 0 <= i < |documents| =>
      SearchResult(documents[i].id, documents[i].text, Cosine(query, documents[i].embedding, sqrt)))
  }

  /** The ranking search performs: the topK best, highest first; a negative
      topK makes take fail. */
  function Rank(documents: seq<Document>, query: seq<real>, topK: int, sqrt: real -> real): (r: Result<seq<SearchResult>>)
    ensures r.Err? <==> topK < 0
    ensures r.Err? ==> r.error == NegativeCountMessage(topK)
    ensures r.Ok? ==> |r.value| == if topK < |documents| then topK else |documents|
    ensures r.Ok? ==> SortedDesc(r.value, SimilarityOf)
    ensures r.Ok? ==> multiset(r.value) <= multiset(Scored(documents, query, sqrt))
  {
    if topK < 0 then Err(NegativeCountMessage(topK))
    else Ok(TopK(Scored(documents, query, sqrt), SimilarityOf, topK))
  }

  /** Every result is a stored document with its own similarity. */
  lemma RankFromStored(documents: seq<Document>, query: seq<real>, topK: nat, sqrt: real -> real)
    ensures var rs := Rank(documents, query, topK, sqrt).value;
            forall k :: 0 <= k < |rs| ==>
              exists i :: 0 <= i < |documents| && rs[k] == Scored(documents, query, sqrt)[i]
  {
    TopKMembers(Scored(documents, query, sqrt), SimilarityOf, topK);
  }

  /** No stored document left out scores above the last result. */
  lemma RankOmittedNotAbove(documents: seq<Document>, query: seq<real>, topK: nat, sqrt: real -> real, x: SearchResult)
    requires 0 < topK
    requires x in multiset(Scored(documents, query, sqrt)) - multiset(Rank(documents, query, topK, sqrt).value)
    ensures var rs := Rank(documents, query, topK, sqrt).value;
            x.similarity <= rs[|rs| - 1].similarity
  {
    var all := Scored(documents, query, sqrt);
    var rs := TopK(all, SimilarityOf, topK);
    assert Rank(documents, query, topK, sqrt).value == rs;
    TopKOmittedNotHigher(all, SimilarityOf, topK, x);
    assert SimilarityOf(rs[|rs| - 1]) == rs[|rs| - 1].similarity;
  }

  /** A stored vector of another length than the query scores 0. */
  lemma MismatchedLengthScoresZero(documents: seq<Document>, query: seq<real>, sqrt: real -> real, i: nat)
    requires i < |documents| && |documents[i].embedding| != |query|
    ensures Scored(documents, query, sqrt)[i].similarity == 0.0
  {
  }

  /** removeIf(id == ...): the documents with another id, in their order. */
  function WithoutId(documents: seq<Document>, id: string): (r: seq<Document>)
    ensures |r| <= |documents|
  {
    if documents == [] then []
    else (if documents[0].id == id then [] else [documents[0]]) + WithoutId(documents[1..], id)
  }

  /** What stays is exactly the documents with another id. */
  lemma {:induction false} WithoutIdMembers(documents: seq<Document>, id: string, d: Document)
    ensures d in WithoutId(documents, id) <==> d in documents && d.id != id
  {
    if documents != [] {
      WithoutIdMembers(documents[1..], id, d);
      assert documents == [documents[0]] + documents[1..];
    }
  }

  /** Something is removed exactly when some document carries the id. */
  lemma {:induction false} WithoutIdShorter(documents: seq<Document>, id: string)
    ensures |WithoutId(documents, id)| < |documents| <==> exists i :: 0 <= i < |documents| && documents[i].id == id
  {
    if documents != [] {
      var t := documents[1..];
      WithoutIdShorter(t, id);
      if documents[0].id != id && (exists i :: 0 <= i < |documents| && documents[i].id == id) {
        var i :| 0 <= i < |documents| && documents[i].id == id;
        assert t[i - 1].id == id;
      }
      if exists i :: 0 <= i < |t| && t[i].id == id {
        var i :| 0 <= i < |t| && t[i].id == id;
        assert documents[i + 1].id == id;
      }
    }
  }

  /** Removing an id no document carries changes nothing. */
  lemma {:induction false} WithoutAbsentId(documents: seq<Document>, id: string)
    requires forall i :: 0 <= i < |documents| ==> documents[i].id != id
    ensures WithoutId(documents, id) == documents
  {
    if documents != [] {
      WithoutAbsentId(documents[1..], id);
    }
  }

  class SimpleSemanticSearchService {
    /** The stored documents in insertion order. */
    var documents: seq<Document>

    constructor ()
      ensures documents == []
    {
      documents := [];
    }

    /** addDocument: appends, whether or not the id is already stored. */
    method AddDocument(text: string, id: string, embedding: seq<real>)
      modifies this
      ensures documents == old(documents) + [Document(id, text, embedding)]
      ensures |documents| == |old(documents)| + 1
    {
      documents := documents + [Document(id, text, embedding)];
    }

    /** search against the stored documents: min(topK, n) results, best
        first, each a stored document with its similarity. */
    function Search(query: seq<real>, topK: int, sqrt: real -> real): (r: Result<seq<SearchResult>>)
      reads this
      ensures r == Rank(documents, query, topK, sqrt)
      ensures r.Err? <==> topK < 0
      ensures r.Err? ==> r.error == NegativeCountMessage(topK)
      ensures r.Ok? ==> |r.value| == if topK < |documents| then topK else |documents|
      ensures r.Ok? ==> SortedDesc(r.value, SimilarityOf)
      ensures r.Ok? ==> multiset(r.value) <= multiset(Scored(documents, query, sqrt))
    {
      Rank(documents, query, topK, sqrt)
    }

    /** getAllDocuments: a copy of the list, in insertion order. */
    method GetAllDocuments() returns (r: seq<Document>)
      ensures r == documents
    {
      r := documents;
    }

    /** removeDocument: drops every document with the id and reports whether
        there was one. */
    method RemoveDocument(id: string) returns (removed: bool)
      modifies this
      ensures documents == WithoutId(old(documents), id)
      ensures removed <==> exists i :: 0 <= i < |old(documents)| && old(documents)[i].id == id
      ensures forall k :: 0 <= k < |documents| ==> documents[k].id != id
    {
      var before := documents;
      documents := WithoutId(documents, id);
      WithoutIdShorter(before, id);
      removed := |documents| < |before|;
      forall k | 0 <= k < |documents| ensures documents[k].id != id {
        WithoutIdMembers(before, id, documents[k]);
      }
    }

    /** clearDocuments: nothing is stored afterwards. */
    method ClearDocuments()
      modifies this
      ensures documents == []
    {
      documents := [];
    }
  }
}
