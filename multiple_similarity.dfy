/** The multiple comparison: every text scored against the query, with its
    position, its percentage and its verbal band, best first. */
module MultipleSimilarity {
  import opened Wrappers
  import opened Strings
  import opened Sorting
  import opened SimilarityUtils

  datatype IndexedResult = IndexedResult(
    index: nat, text: string, similarity: real, similarityPercent: real, interpretation: string)

  /** The three fields reported for the best match. */
  datatype Best = Best(text: string, similarity: real, similarityPercent: real)

  datatype MultipleResponse = MultipleResponse(
    query: string, totalTexts: nat, results: seq<IndexedResult>, mostSimilar: Option<Best>)

  function Entry(texts: seq<string>, score: nat -> real, i: nat): (e: IndexedResult)
    requires i < |texts|
  {
    IndexedResult(i, texts[i], score(i), score(i) * 100.0, InterpretSimilarity(score(i)))
  }

  /** The entries in input order, as mapIndexed makes them. */
  function Entries(texts: seq<string>, score: nat -> real): (r: seq<IndexedResult>)
    ensures |r| == |texts|
    ensures forall i :: 0 <= i < |texts| ==> r[i] == Entry(texts, score, i)
  {
    seq(|texts|, i requires 0 <= i < |texts| => Entry(texts, score, i))
  }

  function SimilarityOf(e: IndexedResult): real {
    e.similarity
  }

  function IndexOf(e: IndexedResult): int {
    e.index
  }

  /** compareMultiple: all entries sorted by score, the first one reported as
      the best match, an empty map (None) when there are no texts. */
  function CompareMultiple(query: string, texts: seq<string>, score: nat -> real): (r: MultipleResponse)
    ensures r.query == query && r.totalTexts == |texts| && |r.results| == |texts|
    ensures SortedDesc(r.results, SimilarityOf)
    ensures multiset(r.results) == multiset(Entries(texts, score))
    ensures r.mostSimilar == if r.results == [] then None
                             else Some(Best(r.results[0].text, r.results[0].similarity, r.results[0].similarityPercent))
  {
    var sorted := SortDesc(Entries(texts, score), SimilarityOf);
    var best := if sorted == [] then None else Some(Best(sorted[0].text, sorted[0].similarity, sorted[0].similarityPercent));
    MultipleResponse(query, |texts|, sorted, best)
  }

  /** Each entry describes one text faithfully: its own text, score,
      percentage and band. */
  lemma EntriesFaithful(query: string, texts: seq<string>, score: nat -> real)
    ensures var rs := CompareMultiple(query, texts, score).results;
            forall k :: 0 <= k < |rs| ==>
              rs[k].index < |texts| && rs[k] == Entry(texts, score, rs[k].index)
  {
    var all := Entries(texts, score);
    SortDescMembers(all, SimilarityOf);
  }

  /** Every text appears exactly once: the positions are distinct and each
      text's own entry occurs. */
  lemma OneEntryPerText(query: string, texts: seq<string>, score: nat -> real)
    ensures var rs := CompareMultiple(query, texts, score).results;
            (forall k, m :: 0 <= k < m < |rs| ==> rs[k].index != rs[m].index) &&
            (forall i :: 0 <= i < |texts| ==> Entry(texts, score, i) in rs)
  {
    var all := Entries(texts, score);
    var rs := CompareMultiple(query, texts, score).results;
    EntriesFaithful(query, texts, score);
    assert NoDuplicates(all) by {
      forall a, b | 0 <= a < b < |all| ensures all[a] != all[b] {
        assert all[a].index == a && all[b].index == b;
      }
    }
    PermutationKeepsDistinct(all, rs);
    forall i | 0 <= i < |texts| ensures Entry(texts, score, i) in rs {
      SortDescSameElements(all, SimilarityOf, all[i]);
    }
  }

  /** The best match is the highest score of all, and exists exactly when
      there is a text. */
  lemma MostSimilarIsMaximum(query: string, texts: seq<string>, score: nat -> real)
    ensures var r := CompareMultiple(query, texts, score);
            (r.mostSimilar.None? <==> texts == []) &&
            (r.mostSimilar.Some? ==> forall i :: 0 <= i < |texts| ==> score(i) <= r.mostSimilar.value.similarity)
  {
    var all := Entries(texts, score);
    var rs := CompareMultiple(query, texts, score).results;
    SortedBounds(rs, SimilarityOf);
    forall i | 0 <= i < |texts| ensures SimilarityOf(rs[0]) >= score(i) {
      SortDescSameElements(all, SimilarityOf, all[i]);
      var k :| 0 <= k < |rs| && rs[k] == all[i];
    }
  }

  /** Texts with equal scores keep their input order (sortedByDescending is
      stable). */
  lemma TiesKeepInputOrder(query: string, texts: seq<string>, score: nat -> real)
    ensures StableBy(CompareMultiple(query, texts, score).results, SimilarityOf, IndexOf)
  {
    SortDescStable(Entries(texts, score), SimilarityOf, IndexOf);
  }
}
