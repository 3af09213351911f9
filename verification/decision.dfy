/**
 * The evaluate route's computation (app.py, lines 224-255) without its file
 * reads: from the claim vectors and the probe vectors to the result record
 * { nearest_dissimilarity, image_status }, or to the error the source would
 * raise. Only the first probe vector is scored, as in the source.
 */
module Decision {
  import opened Wrappers
  import opened Dissimilarity

  /** Scores strictly above this are judged "fake". */
  const Threshold: real := 0.55

  datatype Status = Real | Fake

  /** The JSON payload of the evaluate route. */
  datatype Verification = Verification(nearestDissimilarity: real, imageStatus: Status)

  /** Why no verdict is produced. The source raises in each case (numpy cannot
      stack ragged vectors, an empty claim array has no second dimension,
      faiss rejects a missing or mis-sized query); TooFewClaims stands for a
      search that cannot return k genuine neighbours. */
  datatype EvalError =
    | RaggedClaims
    | RaggedProbes
    | NoClaims
    | NoProbe
    | DimensionMismatch
    | TooFewClaims

  function Verdict(score: real): (s: Status)
    ensures s == Fake <==> score > Threshold
  {
    if score > Threshold then Fake else Real
  }

  /** A higher score never turns a "fake" verdict into "real". */
  lemma VerdictMonotone(lower: real, higher: real)
    requires lower <= higher
    requires Verdict(lower) == Fake
    ensures Verdict(higher) == Fake
  {
  }

  /** The cut is exclusive on the "fake" side. */
  lemma VerdictBoundary()
    ensures Verdict(0.55) == Real
    ensures Verdict(0.5500001) == Fake
    ensures Verdict(0.0) == Real
  {
  }

  /** The inputs on which the source produces a verdict: at least k claim
      vectors, all of one dimension, and at least one probe vector, all of
      that same dimension. */
  predicate WellFormed(claims: seq<Vector>, probes: seq<Vector>)
  {
    && K <= |claims|
    && HasDim(claims, |claims[0]|)
    && |probes| > 0
    && HasDim(probes, |claims[0]|)
  }

  function Evaluate(claims: seq<Vector>, probes: seq<Vector>): (r: Result<Verification, EvalError>)
    ensures r.Success? <==> WellFormed(claims, probes)
    ensures r == Failure(TooFewClaims) <==>
      && 0 < |claims| < K
      && HasDim(claims, |claims[0]|)
      && |probes| > 0
      && HasDim(probes, |claims[0]|)
    ensures r.Success? ==> r.value.nearestDissimilarity >= 0.0
    ensures r.Success? ==>
      (r.value.imageStatus == Fake <==> r.value.nearestDissimilarity > Threshold)
  {
    if |claims| > 0 && !HasDim(claims, |claims[0]|) then Failure(RaggedClaims)
    else if |probes| > 0 && !HasDim(probes, |probes[0]|) then Failure(RaggedProbes)
    else if |claims| == 0 then Failure(NoClaims)
    else if |probes| == 0 then Failure(NoProbe)
    else if |probes[0]| != |claims[0]| then Failure(DimensionMismatch)
    else if |claims| < K then Failure(TooFewClaims)
    else
      var score := QueryScore(probes[0], claims);
      ScoreAtLeast(Distances(probes[0], claims), 0);
      Success(Verification(score, Verdict(score)))
  }

  /** Only the first probe vector is scored: the others matter only through
      the shape checks. */
  lemma OnlyFirstProbeCounts(claims: seq<Vector>, probes: seq<Vector>)
    requires WellFormed(claims, probes)
    ensures WellFormed(claims, [probes[0]])
    ensures Evaluate(claims, probes) == Evaluate(claims, [probes[0]])
  {
    assert probes[0] in probes;
  }

  /** The order of the claim vectors (os.listdir order) does not matter:
      the result, verdict or error, depends only on the multiset of them. */
  lemma ClaimOrderIrrelevant(a: seq<Vector>, b: seq<Vector>, probes: seq<Vector>)
    requires multiset(a) == multiset(b)
    ensures Evaluate(a, probes) == Evaluate(b, probes)
  {
    assert |a| == |multiset(a)| == |multiset(b)| == |b|;
    assert forall v :: v in a <==> v in b by {
      forall v
        ensures v in a <==> v in b
      {
        assert v in a <==> v in multiset(a);
        assert v in b <==> v in multiset(b);
      }
    }
    if |a| > 0 {
      assert a[0] in b && b[0] in a;
      assert HasDim(a, |a[0]|) <==> HasDim(b, |b[0]|);
      if HasDim(a, |a[0]|) {
        assert |a[0]| == |b[0]|;
        if K <= |a| && |probes| > 0 && HasDim(probes, |a[0]|) {
          QueryScorePermutation(probes[0], a, b);
        }
      }
    }
  }

  /** The score lies between the smallest and the largest squared distance
      from the probe to a claim vector, each divided by 100. */
  lemma EvaluateWithin(claims: seq<Vector>, probes: seq<Vector>, lo: int, hi: int)
    requires WellFormed(claims, probes)
    requires forall j :: 0 <= j < |claims| ==> lo <= SqL2(probes[0], claims[j]) <= hi
    ensures Evaluate(claims, probes).Success?
    ensures (lo as real) / 100.0 <= Evaluate(claims, probes).value.nearestDissimilarity
    ensures Evaluate(claims, probes).value.nearestDissimilarity <= (hi as real) / 100.0
  {
    assert probes[0] in probes;
    var ds := Distances(probes[0], claims);
    assert forall x :: x in ds ==> lo <= x <= hi;
    ScoreAtLeast(ds, lo);
    ScoreAtMost(ds, hi);
  }

  /** A probe within squared distance 55 of every claim vector is judged
      "real"; one farther than 55 from every claim vector is judged "fake". */
  lemma VerdictFromDistances(claims: seq<Vector>, probes: seq<Vector>)
    requires WellFormed(claims, probes)
    ensures (forall j :: 0 <= j < |claims| ==> SqL2(probes[0], claims[j]) <= 55) ==>
      Evaluate(claims, probes).Success? && Evaluate(claims, probes).value.imageStatus == Real
    ensures (forall j :: 0 <= j < |claims| ==> SqL2(probes[0], claims[j]) > 55) ==>
      Evaluate(claims, probes).Success? && Evaluate(claims, probes).value.imageStatus == Fake
  {
    assert probes[0] in probes;
    var ds := Distances(probes[0], claims);
    if forall j :: 0 <= j < |claims| ==> SqL2(probes[0], claims[j]) <= 55 {
      assert forall x :: x in ds ==> x <= 55;
      ScoreAtMost(ds, 55);
    }
    if forall j :: 0 <= j < |claims| ==> SqL2(probes[0], claims[j]) > 55 {
      assert forall x :: x in ds ==> 56 <= x;
      ScoreAtLeast(ds, 56);
    }
  }

  /** The score comes from the nearest claim vectors only: if some k of the
      claim vectors lie within squared distance d of the probe, the score is
      at most d / 100 and, for d <= 55, the verdict is "real", however far
      away the remaining claim vectors are. */
  lemma NearClaimsDecide(claims: seq<Vector>, probes: seq<Vector>,
                         near: seq<Vector>, far: seq<Vector>, d: int)
    requires WellFormed(claims, probes)
    requires multiset(claims) == multiset(near + far)
    requires |near| == K
    requires forall j :: 0 <= j < |near| ==>
      |near[j]| == |probes[0]| && SqL2(probes[0], near[j]) <= d
    ensures Evaluate(claims, probes).Success?
    ensures Evaluate(claims, probes).value.nearestDissimilarity <= (d as real) / 100.0
    ensures d <= 55 ==> Evaluate(claims, probes).value.imageStatus == Real
  {
    var q := probes[0];
    assert q in probes;
    ClaimOrderIrrelevant(claims, near + far, probes);
    forall v | v in near + far
      ensures |v| == |q|
    {
      assert v in multiset(claims);
    }
    assert (near + far)[0] in claims by {
      assert (near + far)[0] in multiset(claims);
    }
    NearDistances(q, near, far, d);
  }

  /** The distances to near + far split into those to near, all at most d,
      followed by those to far; the score is then bounded by d / 100. */
  lemma NearDistances(q: Vector, near: seq<Vector>, far: seq<Vector>, d: int)
    requires HasDim(near + far, |q|)
    requires |near| == K
    requires forall j :: 0 <= j < |near| ==> |near[j]| == |q| && SqL2(q, near[j]) <= d
    ensures QueryScore(q, near + far) <= (d as real) / Scale
  {
    assert forall v :: v in near ==> v in near + far;
    assert forall v :: v in far ==> v in near + far;
    MapConcat(DistTo(q), near, far);
    var dn := Distances(q, near);
    assert forall x :: x in dn ==> x <= d;
    ScoreWithinNearest(dn, Distances(q, far), d);
  }

  /** The score is the mean of the 4 nearest squared distances, divided by
      100: when near holds 4 claim vectors and no claim vector in far is
      nearer to the probe than any in near, the score is the sum of the
      distances to near, over 4, over 100. */
  lemma FourNearestClaims(claims: seq<Vector>, probes: seq<Vector>,
                          near: seq<Vector>, far: seq<Vector>)
    requires WellFormed(claims, probes)
    requires multiset(claims) == multiset(near + far)
    requires |near| == K
    requires HasDim(near + far, |probes[0]|)
    requires forall u, v :: u in near && v in far ==>
      SqL2(probes[0], u) <= SqL2(probes[0], v)
    ensures Evaluate(claims, probes).Success?
    ensures Evaluate(claims, probes).value.nearestDissimilarity
         == (((SqL2(probes[0], near[0]) + SqL2(probes[0], near[1])
             + SqL2(probes[0], near[2]) + SqL2(probes[0], near[3])) as real) / 4.0) / 100.0
  {
    var q := probes[0];
    assert q in probes;
    ClaimOrderIrrelevant(claims, near + far, probes);
    assert (near + far)[0] in claims by {
      assert (near + far)[0] in multiset(claims);
    }
    FourNearestDistances(q, near, far);
  }

  /** FourNearestClaims on the claim list near + far itself. */
  lemma FourNearestDistances(q: Vector, near: seq<Vector>, far: seq<Vector>)
    requires HasDim(near + far, |q|)
    requires |near| == K
    requires forall u, v :: u in near && v in far ==> SqL2(q, u) <= SqL2(q, v)
    ensures QueryScore(q, near + far)
         == (((SqL2(q, near[0]) + SqL2(q, near[1]) + SqL2(q, near[2]) + SqL2(q, near[3])) as real)
             / 4.0) / 100.0
  {
    assert forall v :: v in near ==> v in near + far;
    assert forall v :: v in far ==> v in near + far;
    MapConcat(DistTo(q), near, far);
    var dn, df := Distances(q, near), Distances(q, far);
    forall x, y | x in dn && y in df
      ensures x <= y
    {
      var i :| 0 <= i < |dn| && dn[i] == x;
      var j :| 0 <= j < |df| && df[j] == y;
      assert near[i] in near && far[j] in far;
    }
    FourNearestScore(dn, df);
    Sum4(dn);
  }

  /** When all claim vectors are one vector c, the score is the squared
      distance from the probe to c divided by 100. */
  lemma UniformClaims(claims: seq<Vector>, probe: Vector, c: Vector)
    requires K <= |claims|
    requires |c| == |probe|
    requires forall j :: 0 <= j < |claims| ==> claims[j] == c
    ensures Evaluate(claims, [probe])
         == Success(Verification((SqL2(probe, c) as real) / 100.0,
                                 Verdict((SqL2(probe, c) as real) / 100.0)))
  {
    assert claims[0] == c;
    DistancesToCopies(probe, claims, c);
    ScoreUniform(Distances(probe, claims), SqL2(probe, c));
  }

  /** A probe identical to every claim vector scores 0 and is judged "real". */
  lemma IdenticalProbeIsReal(claims: seq<Vector>, probe: Vector)
    requires K <= |claims|
    requires forall j :: 0 <= j < |claims| ==> claims[j] == probe
    ensures Evaluate(claims, [probe]) == Success(Verification(0.0, Real))
  {
    SqL2ZeroIff(probe, probe);
    UniformClaims(claims, probe, probe);
  }

  /** Five claim vectors [1, 0] and the probe [0, 1]: every squared distance
      is 2, so the score is 2 / 100 = 0.02 and the verdict "real". */
  lemma OrthogonalProbeExample()
    ensures Evaluate(seq(5, _ => [1, 0]), [[0, 1]]) == Success(Verification(0.02, Real))
  {
    var claims: seq<Vector> := seq(5, _ => [1, 0]);
    assert SqL2([0, 1], [1, 0]) == 2;
    UniformClaims(claims, [0, 1], [1, 0]);
  }

  /** Four claim vectors equal to the probe and a fifth one anywhere: the
      search keeps the four nearest, so the fifth does not count and the
      score is exactly 0, however far away it lies. Averaging over all five,
      or over the four farthest, would not give 0 once the fifth differs
      from the probe. */
  lemma OutlierClaimIgnored(probe: Vector, outlier: Vector)
    requires |outlier| == |probe|
    ensures Evaluate([probe, probe, probe, probe, outlier], [probe])
         == Success(Verification(0.0, Real))
  {
    var near := [probe, probe, probe, probe];
    var claims := near + [outlier];
    assert claims == [probe, probe, probe, probe, outlier];
    OutlierWellFormed(probe, outlier);
    SqL2ZeroIff(probe, probe);
    assert forall j :: 0 <= j < |near| ==> near[j] == probe;
    NearClaimsDecide(claims, [probe], near, [outlier], 0);
    ZeroScoreIsReal(Evaluate(claims, [probe]));
  }

  lemma OutlierWellFormed(probe: Vector, outlier: Vector)
    requires |outlier| == |probe|
    ensures WellFormed([probe, probe, probe, probe] + [outlier], [probe])
  {
    var claims := [probe, probe, probe, probe] + [outlier];
    forall v | v in claims
      ensures |v| == |probe|
    {
      assert v == probe || v == outlier;
    }
  }

  /** A produced result whose score is squeezed to 0 is the "real" verdict at 0. */
  lemma ZeroScoreIsReal(r: Result<Verification, EvalError>)
    requires r.Success? && r.value.imageStatus == Real
    requires 0.0 <= r.value.nearestDissimilarity <= (0 as real) / 100.0
    ensures r == Success(Verification(0.0, Real))
  {
  }
}
