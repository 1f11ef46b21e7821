/** The pair loops shared by duplicate detection and the pairwise comparison:
    every i < j, row by row, each compared pair recorded once, optionally only
    when its score reaches a threshold. The score of texts i and j is a given
    function; the embedding model behind it is not modelled. */
module SimilarityPairs {
  import opened Strings
  import opened Sorting

  /** One compared pair: both texts, their positions, the score and the
      score times 100. */
  datatype PairRecord = PairRecord(text1: string, text2: string, text1Index: nat, text2Index: nat,
                                   similarity: real, similarityPercent: real)

  /** The similarity of the texts at two positions. */
  type Score = (nat, nat) -> real

  /** Which compared pairs are recorded: all, or those scoring at least the
      threshold. */
  datatype Selection = All | AtLeast(threshold: real)

  predicate Keeps(f: Selection, similarity: real) {
    f.All? || similarity >= f.threshold
  }

  function Record(texts: seq<string>, sim: Score, i: nat, j: nat): PairRecord
    requires i < j < |texts|
  {
    PairRecord(texts[i], texts[j], i, j, sim(i, j), sim(i, j) * 100.0)
  }

  /** The sort key of both services. */
  function Key(r: PairRecord): real {
    r.similarity
  }

  /** What the inner loop of row i has recorded once j has reached hi. */
  function Row(texts: seq<string>, sim: Score, f: Selection, i: nat, hi: nat): seq<PairRecord>
    requires i < |texts| && hi <= |texts|
    decreases hi
  {
    if hi <= i + 1 then [] else Row(texts, sim, f, i, hi - 1) + Cell(texts, sim, f, i, hi - 1)
  }

  lemma RowStep(texts: seq<string>, sim: Score, f: Selection, i: nat, j: nat)
    requires i < j < |texts|
    ensures Row(texts, sim, f, i, j + 1) == Row(texts, sim, f, i, j) + Cell(texts, sim, f, i, j)
  {
  }

  /** What comparing i with j adds. */
  function Cell(texts: seq<string>, sim: Score, f: Selection, i: nat, j: nat): seq<PairRecord>
    requires i < j < |texts|
  {
    if Keeps(f, sim(i, j)) then [Record(texts, sim, i, j)] else []
  }

  /** What the outer loop has recorded once i has reached hi. */
  function Rows(texts: seq<string>, sim: Score, f: Selection, hi: nat): seq<PairRecord>
    requires hi <= |texts|
  {
    if hi == 0 then [] else Rows(texts, sim, f, hi - 1) + Row(texts, sim, f, hi - 1, |texts|)
  }

  /** Every recorded pair, in loop order. */
  function Pairs(texts: seq<string>, sim: Score, f: Selection): seq<PairRecord> {
    Rows(texts, sim, f, |texts|)
  }

  /** The inner loop for row i: compare i with every later j and append the
      kept records to the list built so far. */
  method CollectRow(texts: seq<string>, sim: Score, f: Selection, i: nat, acc: seq<PairRecord>)
    returns (pairs: seq<PairRecord>)
    requires i < |texts|
    ensures pairs == acc + Row(texts, sim, f, i, |texts|)
  {
    pairs := acc;
    var j := i + 1;
    assert acc + Row(texts, sim, f, i, j) == acc;
    while j < |texts|
      invariant i + 1 <= j <= |texts|
      invariant pairs == acc + Row(texts, sim, f, i, j)
    {
      var similarity := sim(i, j);
      if Keeps(f, similarity) {
        pairs := pairs + [PairRecord(texts[i], texts[j], i, j, similarity, similarity * 100.0)];
      }
      RowStep(texts, sim, f, i, j);
      Assoc(acc, Row(texts, sim, f, i, j), Cell(texts, sim, f, i, j));
      j := j + 1;
    }
  }

  /** Both loops: rows i = 0, 1, ... in order, each compared with every
      later text. */
  method CollectPairs(texts: seq<string>, sim: Score, f: Selection) returns (pairs: seq<PairRecord>)
    ensures pairs == Pairs(texts, sim, f)
  {
    pairs := [];
    var i := 0;
    while i < |texts|
      invariant 0 <= i <= |texts|
      invariant pairs == Rows(texts, sim, f, i)
    {
      pairs := CollectRow(texts, sim, f, i, pairs);
      i := i + 1;
    }
  }

  /** A record as the loops make it: i < j, the texts at i and j, their score,
      and a score the selection keeps. */
  predicate Reported(texts: seq<string>, sim: Score, f: Selection, r: PairRecord) {
    r.text1Index < r.text2Index < |texts| && r == Record(texts, sim, r.text1Index, r.text2Index)
    && Keeps(f, r.similarity)
  }

  lemma {:induction false} RowSound(texts: seq<string>, sim: Score, f: Selection, i: nat, hi: nat)
    requires i < |texts| && hi <= |texts|
    ensures forall k :: 0 <= k < |Row(texts, sim, f, i, hi)| ==>
              Reported(texts, sim, f, Row(texts, sim, f, i, hi)[k]) && Row(texts, sim, f, i, hi)[k].text1Index == i
              && Row(texts, sim, f, i, hi)[k].text2Index < hi
    decreases hi
  {
    if hi > i + 1 {
      RowSound(texts, sim, f, i, hi - 1);
    }
  }

  lemma {:induction false} RowsSound(texts: seq<string>, sim: Score, f: Selection, hi: nat)
    requires hi <= |texts|
    ensures forall k :: 0 <= k < |Rows(texts, sim, f, hi)| ==>
              Reported(texts, sim, f, Rows(texts, sim, f, hi)[k]) && Rows(texts, sim, f, hi)[k].text1Index < hi
  {
    if hi > 0 {
      var p := Rows(texts, sim, f, hi - 1);
      var q := Row(texts, sim, f, hi - 1, |texts|);
      RowsSound(texts, sim, f, hi - 1);
      RowSound(texts, sim, f, hi - 1, |texts|);
      forall k | 0 <= k < |p + q| ensures Reported(texts, sim, f, (p + q)[k]) && (p + q)[k].text1Index < hi {
        if k < |p| {
          assert (p + q)[k] == p[k];
        } else {
          assert (p + q)[k] == q[k - |p|];
        }
      }
    }
  }

  /** Every recorded pair is a pair i < j of the input, kept by the selection. */
  lemma PairsSound(texts: seq<string>, sim: Score, f: Selection)
    ensures forall k :: 0 <= k < |Pairs(texts, sim, f)| ==> Reported(texts, sim, f, Pairs(texts, sim, f)[k])
  {
    RowsSound(texts, sim, f, |texts|);
  }

  lemma {:induction false} RowComplete(texts: seq<string>, sim: Score, f: Selection, i: nat, hi: nat, j: nat)
    requires i < j < hi <= |texts| && Keeps(f, sim(i, j))
    ensures Record(texts, sim, i, j) in Row(texts, sim, f, i, hi)
    decreases hi
  {
    if j < hi - 1 {
      RowComplete(texts, sim, f, i, hi - 1, j);
    }
  }

  lemma InConcat<T>(p: seq<T>, q: seq<T>, x: T)
    ensures x in p + q <==> x in p || x in q
  {
  }

  lemma {:induction false} RowsComplete(texts: seq<string>, sim: Score, f: Selection, hi: nat, i: nat, j: nat)
    requires i < hi <= |texts| && i < j < |texts| && Keeps(f, sim(i, j))
    ensures Record(texts, sim, i, j) in Rows(texts, sim, f, hi)
  {
    var p := Rows(texts, sim, f, hi - 1);
    var q := Row(texts, sim, f, hi - 1, |texts|);
    assert Rows(texts, sim, f, hi) == p + q;
    if i < hi - 1 {
      RowsComplete(texts, sim, f, hi - 1, i, j);
    } else {
      RowComplete(texts, sim, f, i, |texts|, j);
    }
    InConcat(p, q, Record(texts, sim, i, j));
  }

  lemma {:induction false} RowDistinct(texts: seq<string>, sim: Score, f: Selection, i: nat, hi: nat)
    requires i < |texts| && hi <= |texts|
    ensures NoDuplicates(Row(texts, sim, f, i, hi))
    decreases hi
  {
    if hi > i + 1 {
      RowDistinct(texts, sim, f, i, hi - 1);
      RowSound(texts, sim, f, i, hi - 1);
      DistinctConcat(Row(texts, sim, f, i, hi - 1), Cell(texts, sim, f, i, hi - 1));
    }
  }

  lemma {:induction false} RowsDistinct(texts: seq<string>, sim: Score, f: Selection, hi: nat)
    requires hi <= |texts|
    ensures NoDuplicates(Rows(texts, sim, f, hi))
  {
    if hi > 0 {
      RowsDistinct(texts, sim, f, hi - 1);
      RowsSound(texts, sim, f, hi - 1);
      RowDistinct(texts, sim, f, hi - 1, |texts|);
      RowSound(texts, sim, f, hi - 1, |texts|);
      DistinctConcat(Rows(texts, sim, f, hi - 1), Row(texts, sim, f, hi - 1, |texts|));
    }
  }

  /** Each pair i < j is recorded exactly once when the selection keeps its
      score, and never otherwise. */
  lemma PairsCount(texts: seq<string>, sim: Score, f: Selection, a: nat, b: nat)
    requires a < b < |texts|
    ensures multiset(Pairs(texts, sim, f))[Record(texts, sim, a, b)] == if Keeps(f, sim(a, b)) then 1 else 0
  {
    var ps := Pairs(texts, sim, f);
    var x := Record(texts, sim, a, b);
    RowsDistinct(texts, sim, f, |texts|);
    DistinctCount(ps, x);
    if Keeps(f, sim(a, b)) {
      RowsComplete(texts, sim, f, |texts|, a, b);
    } else {
      PairsSound(texts, sim, f);
      assert forall k :: 0 <= k < |ps| ==> ps[k] != x;
    }
  }

  lemma {:induction false} RowLength(texts: seq<string>, sim: Score, f: Selection, i: nat, hi: nat)
    requires i < |texts| && hi <= |texts|
    ensures |Row(texts, sim, f, i, hi)| <= if hi <= i + 1 then 0 else hi - i - 1
    ensures f.All? ==> |Row(texts, sim, f, i, hi)| == if hi <= i + 1 then 0 else hi - i - 1
    decreases hi
  {
    if hi > i + 1 {
      RowLength(texts, sim, f, i, hi - 1);
    }
  }

  lemma {:induction false} RowsLength(texts: seq<string>, sim: Score, f: Selection, hi: nat)
    requires hi <= |texts|
    ensures 2 * |Rows(texts, sim, f, hi)| <= hi * (2 * |texts| - hi - 1)
    ensures f.All? ==> 2 * |Rows(texts, sim, f, hi)| == hi * (2 * |texts| - hi - 1)
  {
    if hi > 0 {
      var n := |texts|;
      RowsLength(texts, sim, f, hi - 1);
      RowLength(texts, sim, f, hi - 1, n);
      assert (hi - 1) * (2 * n - (hi - 1) - 1) + 2 * (n - hi) == hi * (2 * n - hi - 1);
    }
  }

  /** At most n(n-1)/2 pairs are recorded, and exactly that many when all are. */
  lemma PairsLength(texts: seq<string>, sim: Score, f: Selection)
    ensures 2 * |Pairs(texts, sim, f)| <= |texts| * (|texts| - 1)
    ensures f.All? ==> 2 * |Pairs(texts, sim, f)| == |texts| * (|texts| - 1)
  {
    RowsLength(texts, sim, f, |texts|);
  }

  /** Each pair appears once, so no record appears twice. */
  lemma PairsDistinct(texts: seq<string>, sim: Score, f: Selection)
    ensures NoDuplicates(Pairs(texts, sim, f))
  {
    RowsDistinct(texts, sim, f, |texts|);
  }

  /** The sorted records: the same records, highest score first, with every
      pair i < j present exactly as often as before sorting. */
  lemma SortedPairs(texts: seq<string>, sim: Score, f: Selection)
    ensures var r := SortDesc(Pairs(texts, sim, f), Key);
            SortedDesc(r, Key) &&
            (forall k :: 0 <= k < |r| ==> Reported(texts, sim, f, r[k])) &&
            (forall a, b :: 0 <= a < b < |texts| ==>
               multiset(r)[Record(texts, sim, a, b)] == if Keeps(f, sim(a, b)) then 1 else 0) &&
            2 * |r| <= |texts| * (|texts| - 1) &&
            (f.All? ==> 2 * |r| == |texts| * (|texts| - 1))
  {
    var ps := Pairs(texts, sim, f);
    var r := SortDesc(ps, Key);
    PairsSound(texts, sim, f);
    PairsLength(texts, sim, f);
    forall k | 0 <= k < |r| ensures Reported(texts, sim, f, r[k]) {
      SortDescMembers(ps, Key);
      var m :| 0 <= m < |ps| && ps[m] == r[k];
    }
    forall a, b | 0 <= a < b < |texts|
      ensures multiset(r)[Record(texts, sim, a, b)] == if Keeps(f, sim(a, b)) then 1 else 0
    {
      PairsCount(texts, sim, f, a, b);
    }
  }
}
