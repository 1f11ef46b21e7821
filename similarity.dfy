/** Cosine similarity of two embedding vectors, and the verbal band a score
    falls into. Vector components are reals; the square root is a parameter,
    so only the guards and the symmetry are modelled, not the rounding. */
module SimilarityUtils {

  /** The dot product, summed from the first component on. */
  function Dot(a: seq<real>, b: seq<real>): real
    requires |a| == |b|
  {
    if a == [] then 0.0 else a[0] * b[0] + Dot(a[1..], b[1..])
  }

  /** Each product is commutative and the sums run in the same order, so
      swapping the arguments changes nothing. */
  lemma {:induction false} DotSymmetric(a: seq<real>, b: seq<real>)
    requires |a| == |b|
    ensures Dot(a, b) == Dot(b, a)
  {
    if a != [] {
      DotSymmetric(a[1..], b[1..]);
    }
  }

  /** A sum of squares is never negative. */
  lemma {:induction false} DotSelfNonNegative(a: seq<real>)
    ensures Dot(a, a) >= 0.0
  {
    if a != [] {
      DotSelfNonNegative(a[1..]);
    }
  }

  /** cosineSimilarity: 0 for vectors of different length or when either norm
      is not positive, otherwise the dot product over the product of norms. */
  function Cosine(a: seq<real>, b: seq<real>, sqrt: real -> real): (r: real)
    ensures |a| != |b| ==> r == 0.0
    ensures |a| == |b| && !(sqrt(Dot(a, a)) > 0.0 && sqrt(Dot(b, b)) > 0.0) ==> r == 0.0
    ensures |a| == |b| && sqrt(Dot(a, a)) > 0.0 && sqrt(Dot(b, b)) > 0.0 ==>
              r * (sqrt(Dot(a, a)) * sqrt(Dot(b, b))) == Dot(a, b)
  {
    if |a| != |b| then 0.0
    else
      var normA := sqrt(Dot(a, a));
      var normB := sqrt(Dot(b, b));
      if normA > 0.0 && normB > 0.0 then Dot(a, b) / (normA * normB) else 0.0
  }

  /** The similarity does not depend on the order of its arguments. */
  lemma CosineSymmetric(a: seq<real>, b: seq<real>, sqrt: real -> real)
    ensures Cosine(a, b, sqrt) == Cosine(b, a, sqrt)
  {
    if |a| == |b| {
      DotSymmetric(a, b);
      var na := sqrt(Dot(a, a));
      var nb := sqrt(Dot(b, b));
      assert na * nb == nb * na;
    }
  }

  /** A zero vector is similar to nothing, whatever the square root gives
      for 0. */
  lemma {:induction false} CosineZeroVector(a: seq<real>, b: seq<real>, sqrt: real -> real)
    requires forall k :: 0 <= k < |a| ==> a[k] == 0.0
    requires sqrt(0.0) == 0.0
    ensures Cosine(a, b, sqrt) == 0.0
  {
    if |a| == |b| {
      ZeroDot(a);
    }
  }

  lemma {:induction false} ZeroDot(a: seq<real>)
    requires forall k :: 0 <= k < |a| ==> a[k] == 0.0
    ensures Dot(a, a) == 0.0
  {
    if a != [] {
      assert forall k :: 0 <= k < |a[1..]| ==> a[1..][k] == a[k + 1];
      ZeroDot(a[1..]);
    }
  }

  /** The five wordings, from least to most similar. */
  const Bands: seq<string> := ["다름", "다소 다름", "보통", "유사", "매우 유사"]

  /** The index in Bands of the band holding the score: lower bounds 0.3,
      0.5, 0.7 and 0.9, each inclusive. */
  function BandIndex(similarity: real): (k: nat)
    ensures k < |Bands|
    ensures k == 4 <==> similarity >= 0.9
    ensures k == 3 <==> 0.7 <= similarity < 0.9
    ensures k == 2 <==> 0.5 <= similarity < 0.7
    ensures k == 1 <==> 0.3 <= similarity < 0.5
    ensures k == 0 <==> similarity < 0.3
  {
    if similarity >= 0.9 then 4
    else if similarity >= 0.7 then 3
    else if similarity >= 0.5 then 2
    else if similarity >= 0.3 then 1
    else 0
  }

  /** interpretSimilarity: the first band whose lower bound the score meets. */
  function InterpretSimilarity(similarity: real): (r: string)
    ensures r == Bands[BandIndex(similarity)]
  {
    if similarity >= 0.9 then "매우 유사"
    else if similarity >= 0.7 then "유사"
    else if similarity >= 0.5 then "보통"
    else if similarity >= 0.3 then "다소 다름"
    else "다름"
  }

  /** The wordings differ, so a wording names its band. */
  lemma BandsDistinct()
    ensures forall i, j :: 0 <= i < j < |Bands| ==> Bands[i] != Bands[j]
  {
    assert |Bands[0]| == 2 && |Bands[2]| == 2 && |Bands[3]| == 2;
    assert |Bands[1]| == 5 && |Bands[4]| == 5;
    assert Bands[0][0] != Bands[2][0] && Bands[0][0] != Bands[3][0] && Bands[2][0] != Bands[3][0];
    assert Bands[1][0] != Bands[4][0];
  }

  /** A higher score never gets a lower band. */
  lemma InterpretMonotone(s: real, t: real)
    requires s <= t
    ensures BandIndex(s) <= BandIndex(t)
  {
  }

  /** Two scores get the same wording exactly when they fall in the same band. */
  lemma InterpretSameBand(s: real, t: real)
    ensures InterpretSimilarity(s) == InterpretSimilarity(t) <==> BandIndex(s) == BandIndex(t)
  {
    BandsDistinct();
  }

  /** Each bound belongs to the band above it. */
  lemma BandBoundsInclusive()
    ensures InterpretSimilarity(0.9) == "매우 유사" && InterpretSimilarity(0.7) == "유사"
    ensures InterpretSimilarity(0.5) == "보통" && InterpretSimilarity(0.3) == "다소 다름"
    ensures InterpretSimilarity(0.29) == "다름"
  {
  }
}
