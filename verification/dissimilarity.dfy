/**
 * The dissimilarity score of app.py's evaluate route (lines 238-247): an
 * exact L2 index (faiss IndexFlatL2) is built over the claim vectors, the
 * probe vector is queried for its k = 4 nearest claim vectors, and the four
 * squared distances are summed, divided by 4, then divided by 100.
 *
 * faiss is modelled by its specification, not its code: the search returns
 * the k smallest squared distances in ascending order. Vector components are
 * integers standing for the float32 embedding values; float32 rounding is
 * not modelled. The score itself, with its two divisions, is a real. The
 * search and the score are stated over the sequence of distances, so that
 * their proofs never meet the non-linear arithmetic of the distance itself.
 */
module Dissimilarity {
  import opened Sorting

  type Vector = seq<int>

  /** k_value: the number of neighbours whose distances are averaged. */
  const K: nat := 4

  /** The calibration divisor applied after averaging. */
  const Scale: real := 100.0

  /** Squared Euclidean distance, the metric of IndexFlatL2. */
  function SqL2(u: Vector, v: Vector): (d: nat)
    requires |u| == |v|
    decreases |u|
  {
    if |u| == 0 then 0
    else (u[0] - v[0]) * (u[0] - v[0]) + SqL2(u[1..], v[1..])
  }

  /** A vector is at distance zero exactly from itself. */
  lemma {:induction false} SqL2ZeroIff(u: Vector, v: Vector)
    requires |u| == |v|
    ensures SqL2(u, v) == 0 <==> u == v
    decreases |u|
  {
    if |u| > 0 {
      SqL2ZeroIff(u[1..], v[1..]);
      assert u == [u[0]] + u[1..] && v == [v[0]] + v[1..];
    }
  }

  /** Every vector in vs has dimension d. */
  predicate HasDim(vs: seq<Vector>, d: nat)
  {
    forall v :: v in vs ==> |v| == d
  }

  /** f applied to each element of xs, in order. */
  function Map<T>(f: T --> int, xs: seq<T>): (ys: seq<int>)
    requires DefinedOn(f, xs)
    ensures |ys| == |xs|
    ensures forall j :: 0 <= j < |xs| ==> ys[j] == f(xs[j])
  {
    seq(|xs|, j requires 0 <= j < |xs| => f(xs[j]))
  }

  lemma MapConcat<T>(f: T --> int, a: seq<T>, b: seq<T>)
    requires DefinedOn(f, a) && DefinedOn(f, b)
    ensures DefinedOn(f, a + b)
    ensures Map(f, a + b) == Map(f, a) + Map(f, b)
  {
  }

  /** f is defined on every element of xs. */
  ghost predicate DefinedOn<T>(f: T --> int, xs: seq<T>)
  {
    forall x :: x in xs ==> f.requires(x)
  }

  lemma DefinedOnSub<T>(f: T --> int, big: seq<T>, small: seq<T>)
    requires DefinedOn(f, big)
    requires multiset(small) <= multiset(big)
    ensures DefinedOn(f, small)
  {
    forall x | x in small
      ensures f.requires(x)
    {
      assert x in multiset(small);
    }
  }

  /** Taking out the element at index k takes its image out of the mapped multiset. */
  lemma MapRemove<T>(f: T --> int, b: seq<T>, k: nat)
    requires DefinedOn(f, b)
    requires k < |b|
    ensures DefinedOn(f, b[..k] + b[k + 1..])
    ensures multiset(Map(f, b))
         == multiset(Map(f, b[..k] + b[k + 1..])) + multiset{f(b[k])}
  {
    var b1, b2 := b[..k], b[k + 1..];
    assert b == b1 + [b[k]] + b2;
    DefinedOnSub(f, b, b1);
    DefinedOnSub(f, b, b2);
    DefinedOnSub(f, b, [b[k]]);
    MapConcat(f, b1, [b[k]]);
    MapConcat(f, b1 + [b[k]], b2);
    MapConcat(f, b1, b2);
  }

  /** Mapping over a reordering of xs gives a reordering of the images. */
  lemma {:induction false} MapPermutation<T>(f: T --> int, a: seq<T>, b: seq<T>)
    requires DefinedOn(f, a)
    requires multiset(a) == multiset(b)
    ensures DefinedOn(f, b)
    ensures multiset(Map(f, a)) == multiset(Map(f, b))
    decreases |a|
  {
    DefinedOnSub(f, a, b);
    assert |a| == |multiset(a)| == |multiset(b)| == |b|;
    if |a| > 0 {
      var n := |a| - 1;
      var x := a[n];
      assert x in multiset(b);
      var k :| 0 <= k < |b| && b[k] == x;
      var rest := b[..k] + b[k + 1..];
      assert a[..n] + a[n + 1..] == a[..n];
      MultisetRemove(a, n);
      MultisetRemove(b, k);
      MapPermutation(f, a[..n], rest);
      MapRemove(f, a, n);
      MapRemove(f, b, k);
    }
  }

  /** The distance from q, as a function of the indexed vector. */
  function DistTo(q: Vector): Vector --> int
  {
    v requires |v| == |q| => SqL2(q, v)
  }

  /** The squared distance from the query to each claim vector, in claim order. */
  function Distances(q: Vector, claims: seq<Vector>): (ds: seq<int>)
    requires HasDim(claims, |q|)
    ensures |ds| == |claims|
    ensures forall j :: 0 <= j < |claims| ==> ds[j] == SqL2(q, claims[j])
  {
    Map(DistTo(q), claims)
  }

  /** Claim vectors that are all copies of c are all at c's distance. */
  lemma DistancesToCopies(q: Vector, claims: seq<Vector>, c: Vector)
    requires |c| == |q|
    requires forall j :: 0 <= j < |claims| ==> claims[j] == c
    ensures HasDim(claims, |q|)
    ensures forall x :: x in Distances(q, claims) ==> x == SqL2(q, c)
  {
    forall v | v in claims
      ensures |v| == |q|
    {
      var j :| 0 <= j < |claims| && claims[j] == v;
    }
    var ds := Distances(q, claims);
    forall x | x in ds
      ensures x == SqL2(q, c)
    {
      var j :| 0 <= j < |ds| && ds[j] == x;
    }
  }

  /** IndexFlatL2.search for a single query, given its distances to the
      indexed vectors: the k smallest of them, in ascending order. */
  function KNearest(ds: seq<int>, k: nat): (D: seq<int>)
    requires k <= |ds|
    ensures |D| == k
    ensures Sorted(D)
    ensures multiset(D) <= multiset(ds)
    ensures forall x, y :: x in multiset(ds) - multiset(D) && y in D ==> y <= x
  {
    var sorted := Sort(ds);
    SortedSplit(sorted, k);
    sorted[..k]
  }

  function Sum(s: seq<int>): int
    decreases |s|
  {
    if |s| == 0 then 0 else s[0] + Sum(s[1..])
  }

  /** avg_dissimilarity from the k returned distances: their sum divided by
      k, then by the calibration divisor. */
  function Score(D: seq<int>): real
  {
    ((Sum(D) as real) / (K as real)) / Scale
  }

  /** The score of a query against the claim vectors. */
  function QueryScore(q: Vector, claims: seq<Vector>): real
    requires HasDim(claims, |q|)
    requires K <= |claims|
  {
    Score(KNearest(Distances(q, claims), K))
  }

  lemma {:induction false} SumAtLeast(s: seq<int>, lo: int)
    requires forall x :: x in s ==> lo <= x
    ensures |s| * lo <= Sum(s)
    decreases |s|
  {
    if |s| > 0 {
      assert s[0] in s;
      assert forall x :: x in s[1..] ==> x in s;
      SumAtLeast(s[1..], lo);
    }
  }

  lemma {:induction false} SumAtMost(s: seq<int>, hi: int)
    requires forall x :: x in s ==> x <= hi
    ensures Sum(s) <= |s| * hi
    decreases |s|
  {
    if |s| > 0 {
      assert s[0] in s;
      assert forall x :: x in s[1..] ==> x in s;
      SumAtMost(s[1..], hi);
    }
  }

  /** Every distance the search returns is one of the given distances. */
  lemma KNearestDrawsFrom(ds: seq<int>, k: nat)
    requires k <= |ds|
    ensures forall y :: y in KNearest(ds, k) ==> y in ds
  {
    forall y | y in KNearest(ds, k)
      ensures y in ds
    {
      assert y in multiset(KNearest(ds, k));
      assert y in multiset(ds);
    }
  }

  /** A lower bound on every distance bounds the score from below. */
  lemma ScoreAtLeast(ds: seq<int>, lo: int)
    requires K <= |ds|
    requires forall x :: x in ds ==> lo <= x
    ensures (lo as real) / Scale <= Score(KNearest(ds, K))
  {
    var D := KNearest(ds, K);
    KNearestDrawsFrom(ds, K);
    SumAtLeast(D, lo);
    assert 4 * lo <= Sum(D);
  }

  /** An upper bound on every distance bounds the score from above. */
  lemma ScoreAtMost(ds: seq<int>, hi: int)
    requires K <= |ds|
    requires forall x :: x in ds ==> x <= hi
    ensures Score(KNearest(ds, K)) <= (hi as real) / Scale
  {
    var D := KNearest(ds, K);
    KNearestDrawsFrom(ds, K);
    SumAtMost(D, hi);
    assert Sum(D) <= 4 * hi;
  }

  /** When every distance is the same value d, the score is exactly d divided
      by the calibration divisor: averaging and scaling are each applied once. */
  lemma ScoreUniform(ds: seq<int>, d: int)
    requires K <= |ds|
    requires forall x :: x in ds ==> x == d
    ensures Score(KNearest(ds, K)) == (d as real) / Scale
  {
    ScoreAtLeast(ds, d);
    ScoreAtMost(ds, d);
  }

  /** A multiset inside another is no larger. */
  lemma SubMultisetCard(small: multiset<int>, big: multiset<int>)
    requires small <= big
    ensures |small| <= |big|
  {
    assert big == small + (big - small);
  }

  /** The counting argument behind nearest-ness: if D is as long as near,
      near is drawn from ds, and nothing of ds left out of D is smaller than
      anything in D, then D holds nothing above the largest of near. */
  lemma SelectionBelow(ds: seq<int>, D: seq<int>, near: seq<int>, d: int)
    requires multiset(near) <= multiset(ds)
    requires |near| == |D|
    requires forall x, y :: x in multiset(ds) - multiset(D) && y in D ==> y <= x
    requires forall x :: x in near ==> x <= d
    ensures forall y :: y in D ==> y <= d
  {
    var mn, mD := multiset(near), multiset(D);
    forall z | z in D
      ensures z <= d
    {
      if d < z {
        forall x
          ensures mn[x] <= mD[x]
        {
          if x in mn {
            assert x in near;
            if x in multiset(ds) - mD {
              // x is left out, so z <= x; yet x <= d < z.
              assert false;
            }
            assert mn[x] <= multiset(ds)[x] <= mD[x];
          }
        }
        assert z !in near && z in mD;
        forall x
          ensures (mn + multiset{z})[x] <= mD[x]
        {
        }
        assert mn + multiset{z} <= mD;
        SubMultisetCard(mn + multiset{z}, mD);
      }
    }
  }

  /** Nearest-ness: when k of the distances are at most d, every distance the
      search returns is at most d, whatever the other distances are. */
  lemma KNearestWithin(near: seq<int>, far: seq<int>, d: int)
    requires |near| == K
    requires forall x :: x in near ==> x <= d
    ensures forall y :: y in KNearest(near + far, K) ==> y <= d
  {
    assert multiset(near + far) == multiset(near) + multiset(far);
    SelectionBelow(near + far, KNearest(near + far, K), near, d);
  }

  /** k distances at most d bound the score by d over the calibration
      divisor, however large the remaining distances are. */
  lemma ScoreWithinNearest(near: seq<int>, far: seq<int>, d: int)
    requires |near| == K
    requires forall x :: x in near ==> x <= d
    ensures Score(KNearest(near + far, K)) <= (d as real) / Scale
  {
    var D := KNearest(near + far, K);
    KNearestWithin(near, far, d);
    SumAtMost(D, d);
    assert Sum(D) <= 4 * d;
  }

  lemma {:induction false} SumConcat(a: seq<int>, b: seq<int>)
    ensures Sum(a + b) == Sum(a) + Sum(b)
    decreases |a|
  {
    if |a| == 0 {
      assert a + b == b;
    } else {
      assert (a + b)[0] == a[0] && (a + b)[1..] == a[1..] + b;
      SumConcat(a[1..], b);
    }
  }

  /** The sum does not depend on the order of the summands. */
  lemma {:induction false} SumPermutation(a: seq<int>, b: seq<int>)
    requires multiset(a) == multiset(b)
    ensures Sum(a) == Sum(b)
    decreases |a|
  {
    SameLength(a, b);
    if |a| > 0 {
      assert a[0] in multiset(b);
      var k :| 0 <= k < |b| && b[k] == a[0];
      var rest := b[..k] + b[k + 1..];
      MultisetTail(a);
      MultisetRemove(b, k);
      SumPermutation(a[1..], rest);
      assert b == b[..k] + [b[k]] + b[k + 1..];
      SumConcat(b[..k] + [b[k]], b[k + 1..]);
      SumConcat(b[..k], [b[k]]);
      SumConcat(b[..k], b[k + 1..]);
      assert Sum([b[k]]) == b[k];
    }
  }

  lemma Sum4(s: seq<int>)
    requires |s| == 4
    ensures Sum(s) == s[0] + s[1] + s[2] + s[3]
  {
    var t1 := s[1..];
    var t2 := t1[1..];
    var t3 := t2[1..];
    assert Sum(t3[1..]) == 0;
    assert Sum(t3) == s[3];
    assert Sum(t2) == s[2] + s[3];
    assert Sum(t1) == s[1] + s[2] + s[3];
  }

  /** When every distance in near is at most every distance in far, the
      search over near + far returns exactly near, in ascending order. */
  lemma KNearestIsNear(near: seq<int>, far: seq<int>)
    requires |near| == K
    requires forall x, y :: x in near && y in far ==> x <= y
    ensures multiset(KNearest(near + far, K)) == multiset(near)
  {
    var sn, sf := Sort(near), Sort(far);
    forall x, y | x in sn && y in sf
      ensures x <= y
    {
      assert x in multiset(sn) && y in multiset(sf);
      assert x in near && y in far;
    }
    SortedConcat(sn, sf);
    SameLength(sn, near);
    SortedUnique(Sort(near + far), sn + sf);
    assert (sn + sf)[..K] == sn;
  }

  /** The score is the mean of the k nearest distances, divided by 100: when
      near holds the 4 smallest distances, the score is their sum over 4,
      over 100, however large the other distances are. */
  lemma FourNearestScore(near: seq<int>, far: seq<int>)
    requires |near| == K
    requires forall x, y :: x in near && y in far ==> x <= y
    ensures Score(KNearest(near + far, K)) == ((Sum(near) as real) / 4.0) / 100.0
  {
    KNearestIsNear(near, far);
    SumPermutation(KNearest(near + far, K), near);
  }

  /** The k nearest distances depend only on the multiset of distances. */
  lemma KNearestPermutation(ds: seq<int>, es: seq<int>, k: nat)
    requires k <= |ds|
    requires multiset(ds) == multiset(es)
    ensures k <= |es|
    ensures KNearest(ds, k) == KNearest(es, k)
  {
    assert |ds| == |multiset(ds)| == |multiset(es)| == |es|;
    SortedUnique(Sort(ds), Sort(es));
  }

  /** The score does not depend on the order in which the claim vectors
      were listed (os.listdir order), only on the multiset of them. */
  lemma QueryScorePermutation(q: Vector, a: seq<Vector>, b: seq<Vector>)
    requires HasDim(a, |q|)
    requires K <= |a|
    requires multiset(a) == multiset(b)
    ensures HasDim(b, |q|) && K <= |b|
    ensures QueryScore(q, a) == QueryScore(q, b)
  {
    forall v | v in b
      ensures |v| == |q|
    {
      assert v in multiset(a);
    }
    MapPermutation(DistTo(q), a, b);
    KNearestPermutation(Distances(q, a), Distances(q, b), K);
  }
}
