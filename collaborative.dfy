/** User-based collaborative filtering over a rating matrix: the similarity of one user
    to every other user, measured on the items both rated, and a similarity-weighted
    average for the items the target user has not rated. A rating of 0.0 means "unrated". */
module Collaborative {

  import opened Wrappers
  import opened VectorMath
  import opened SkipPass

  /** A neighbour as the caller passes it: a user's row index and that user's similarity. */
  type Neighbour = (nat, real)

  /** Row b has an entry at every item row a rated. These are the only entries of b the
      comparison reads: the test on b's entry runs only where a's entry is non-zero. */
  ghost predicate CoversRated(a: Vector, b: Vector)
  {
    forall j :: 0 <= j < |a| && a[j] != 0.0 ==> j < |b|
  }

  /** The two rows share no item that both have rated (among the first |a| items). */
  ghost predicate NoCommonItem(a: Vector, b: Vector)
    requires CoversRated(a, b)
  {
    forall j :: 0 <= j < |a| ==> a[j] == 0.0 || b[j] == 0.0
  }

  /** The common support: the item indices j < |a| at which both a and b hold a
      non-zero rating, in ascending order (CommonSupportExact). */
  function CommonSupport(a: Vector, b: Vector): seq<nat>
    requires CoversRated(a, b)
  {
    CommonBelow(a, b, |a|)
  }

  /** The common support among the first n items. */
  function CommonBelow(a: Vector, b: Vector, n: nat): seq<nat>
    requires n <= |a| && CoversRated(a, b)
  {
    if n == 0 then []
    else
      CommonBelow(a, b, n - 1) + (if a[n - 1] != 0.0 && b[n - 1] != 0.0 then [n - 1] else [])
  }

  /** The common support lists, in strictly ascending order, exactly the items j < |a|
      that both rows rated. */
  lemma CommonSupportExact(a: Vector, b: Vector)
    requires CoversRated(a, b)
    ensures var idx := CommonSupport(a, b);
            && (forall k :: 0 <= k < |idx| ==>
                  idx[k] < |a| && idx[k] < |b| && a[idx[k]] != 0.0 && b[idx[k]] != 0.0)
            && (forall j :: 0 <= j < |a| && a[j] != 0.0 && b[j] != 0.0 ==> j in idx)
            && (forall k, l :: 0 <= k < l < |idx| ==> idx[k] < idx[l])
  {
    CommonBelowExact(a, b, |a|);
  }

  lemma {:induction false} CommonBelowExact(a: Vector, b: Vector, n: nat)
    requires n <= |a| && CoversRated(a, b)
    ensures var idx := CommonBelow(a, b, n);
            && (forall k :: 0 <= k < |idx| ==>
                  idx[k] < n && idx[k] < |b| && a[idx[k]] != 0.0 && b[idx[k]] != 0.0)
            && (forall j :: 0 <= j < n && a[j] != 0.0 && b[j] != 0.0 ==> j in idx)
            && (forall k, l :: 0 <= k < l < |idx| ==> idx[k] < idx[l])
  {
    if n != 0 {
      CommonBelowExact(a, b, n - 1);
    }
  }

  /** The components of v at the positions listed in idx, in that order
      (RestrictEntries). */
  function Restrict(v: Vector, idx: seq<nat>): Vector
    requires forall k :: 0 <= k < |idx| ==> idx[k] < |v|
  {
    if |idx| == 0 then []
    else Restrict(v, idx[..|idx| - 1]) + [v[idx[|idx| - 1]]]
  }

  /** The restricted vector has one component per listed position: component k is
      v[idx[k]]. */
  lemma {:induction false} RestrictEntries(v: Vector, idx: seq<nat>)
    requires forall k :: 0 <= k < |idx| ==> idx[k] < |v|
    ensures |Restrict(v, idx)| == |idx|
    ensures forall k :: 0 <= k < |idx| ==> Restrict(v, idx)[k] == v[idx[k]]
  {
    if |idx| != 0 {
      RestrictEntries(v, idx[..|idx| - 1]);
    }
  }

  /** One entry of the similarity listing: the other user's row index, the similarity,
      and the two rows restricted to the common support (absent when it is empty). */
  datatype Similarity = Similarity(other: nat, sim: real, vecA: Option<Vector>, vecB: Option<Vector>)

  /** Compares the target's row with the row of user i. With no common support the
      entry is (i, 0.0, None, None); otherwise it holds both rows restricted to the
      common support and their similarity (see ComparisonOnCommonSupport). */
  function CompareUsers(current: Vector, other: Vector, i: nat, sqrt: real -> real): (r: Similarity)
    requires CoversRated(current, other)
    requires IsSqrt(sqrt)
    ensures r.other == i
    ensures r.vecA.None? <==> NoCommonItem(current, other)
    ensures r.vecA.None? ==> r == Similarity(i, 0.0, None, None)
  {
    var common := CommonSupport(current, other);
    CommonSupportExact(current, other);
    if |common| == 0 then
      Similarity(i, 0.0, None, None)
    else
      assert !NoCommonItem(current, other) by {
        assert current[common[0]] != 0.0 && other[common[0]] != 0.0;
      }
      var vecA := Restrict(current, common);
      var vecB := Restrict(other, common);
      Similarity(i, CosineByDenominator(vecA, vecB, sqrt), Some(vecA), Some(vecB))
  }

  /** When the two rows share a rated item, the comparison holds both rows restricted
      to the common support: vectors of the support's length with only non-zero
      entries. Their norms are therefore positive, the zero guard on the denominator
      never applies, and the similarity is their cosine. */
  lemma ComparisonOnCommonSupport(current: Vector, other: Vector, i: nat, sqrt: real -> real)
    requires CoversRated(current, other)
    requires IsSqrt(sqrt)
    requires !NoCommonItem(current, other)
    ensures var r := CompareUsers(current, other, i, sqrt);
            var common := CommonSupport(current, other);
            && r.vecA.Some? && r.vecB.Some?
            && |r.vecA.value| == |common| && |r.vecB.value| == |common|
            && (forall k :: 0 <= k < |common| ==>
                  common[k] < |current| && common[k] < |other| &&
                  r.vecA.value[k] == current[common[k]] && r.vecA.value[k] != 0.0 &&
                  r.vecB.value[k] == other[common[k]] && r.vecB.value[k] != 0.0)
            && 0.0 < Magnitude(r.vecA.value, sqrt) * Magnitude(r.vecB.value, sqrt)
            && r.sim == Cosine(r.vecA.value, r.vecB.value, sqrt)
  {
    var common := CommonSupport(current, other);
    CommonSupportExact(current, other);
    var vecA := Restrict(current, common);
    var vecB := Restrict(other, common);
    RestrictEntries(current, common);
    RestrictEntries(other, common);
    assert !IsZero(vecA) && !IsZero(vecB) by {
      assert vecA[0] != 0.0 && vecB[0] != 0.0;
    }
    ProductPositive(Magnitude(vecA, sqrt), Magnitude(vecB, sqrt));
  }

  /** The similarity listing: one entry per user other than the target, in row order,
      so that the k-th entry is the comparison with the k-th row other than the
      target's and there are as many entries as users minus one. */
  method UserSimilarities(ratings: Matrix, target: nat, sqrt: real -> real)
    returns (results: seq<Similarity>)
    requires target < |ratings|
    requires forall i :: 0 <= i < |ratings| ==> CoversRated(ratings[target], ratings[i])
    requires IsSqrt(sqrt)
    ensures |results| == |ratings| - 1
    ensures forall k :: 0 <= k < |results| ==>
              OtherRow(k, target) < |ratings| &&
              results[k] == CompareUsers(ratings[target], ratings[OtherRow(k, target)], OtherRow(k, target), sqrt)
  {
    var current := ratings[target];
    results := [];
    var i := 0;
    while i < |ratings|
      invariant 0 <= i <= |ratings|
      invariant |results| == if i <= target then i else i - 1
      invariant forall k :: 0 <= k < |results| ==>
                  OtherRow(k, target) < i &&
                  results[k] == CompareUsers(current, ratings[OtherRow(k, target)], OtherRow(k, target), sqrt)
    {
      if i != target {
        results := results + [CompareUsers(current, ratings[i], i, sqrt)];
      }
      i := i + 1;
    }
  }

  /** Every neighbour's row exists and has at least n entries. */
  ghost predicate NeighboursCover(ratings: Matrix, ns: seq<Neighbour>, n: nat)
  {
    forall k :: 0 <= k < |ns| ==> ns[k].0 < |ratings| && n <= |ratings[ns[k].0]|
  }

  /** The rating neighbour nb gave item m (0.0 when unrated). */
  function RatingOf(ratings: Matrix, nb: Neighbour, m: nat): real
    requires nb.0 < |ratings| && m < |ratings[nb.0]|
  {
    ratings[nb.0][m]
  }

  /** Accumulated sim * rating over the neighbours, in order, skipping any neighbour
      that has not rated item m. */
  function WeightedSum(ratings: Matrix, ns: seq<Neighbour>, m: nat): real
    requires NeighboursCover(ratings, ns, m + 1)
  {
    if |ns| == 0 then 0.0
    else
      var nb := ns[|ns| - 1];
      var rating := RatingOf(ratings, nb, m);
      WeightedSum(ratings, ns[..|ns| - 1], m) + (if rating != 0.0 then Times(nb.1, rating) else 0.0)
  }

  /** Accumulated similarity over the neighbours, in order, skipping any neighbour
      that has not rated item m. */
  function SimTotal(ratings: Matrix, ns: seq<Neighbour>, m: nat): real
    requires NeighboursCover(ratings, ns, m + 1)
  {
    if |ns| == 0 then 0.0
    else
      var nb := ns[|ns| - 1];
      var rating := RatingOf(ratings, nb, m);
      SimTotal(ratings, ns[..|ns| - 1], m) + (if rating != 0.0 then nb.1 else 0.0)
  }

  /** What the predictor leaves in slot m: nothing for an item the target already
      rated; otherwise the weighted average when the similarity total is positive,
      and nothing when it is not. */
  function PredictionSlot(ratings: Matrix, target: nat, ns: seq<Neighbour>, m: nat): Option<real>
    requires target < |ratings| && m < |ratings[target]|
    requires ratings[target][m] == 0.0 ==> NeighboursCover(ratings, ns, m + 1)
  {
    if ratings[target][m] != 0.0 then None
    else
      var total := SimTotal(ratings, ns, m);
      if total > 0.0 then Some(WeightedSum(ratings, ns, m) / total) else None
  }

  /** Predictions for the first itemCount items: a fresh vector, one slot per item,
      each slot as PredictionSlot describes; the rating matrix is only read. */
  method PredictCollaborative(ratings: Matrix, itemCount: nat, target: nat, neighbours: seq<Neighbour>)
    returns (predictions: seq<Option<real>>)
    requires target < |ratings| && itemCount <= |ratings[target]|
    requires forall m :: 0 <= m < itemCount && ratings[target][m] == 0.0 ==>
               NeighboursCover(ratings, neighbours, m + 1)
    ensures |predictions| == itemCount
    ensures forall m :: 0 <= m < itemCount ==>
              predictions[m] == PredictionSlot(ratings, target, neighbours, m)
  {
    var current := ratings[target];
    var slots := new Option<real>[itemCount](_ => None);
    for m := 0 to itemCount
      invariant forall j :: 0 <= j < m ==> slots[j] == PredictionSlot(ratings, target, neighbours, j)
      invariant forall j :: m <= j < itemCount ==> slots[j] == None
    {
      if current[m] != 0.0 {
        continue;
      }
      var weighted, simSum := 0.0, 0.0;
      for k := 0 to |neighbours|
        invariant weighted == WeightedSum(ratings, neighbours[..k], m)
        invariant simSum == SimTotal(ratings, neighbours[..k], m)
      {
        var (other, sim) := neighbours[k];
        var rating := ratings[other][m];
        if rating != 0.0 {
          weighted := weighted + sim * rating;
          simSum := simSum + sim;
        }
        assert neighbours[..k + 1][..k] == neighbours[..k];
      }
      assert neighbours[..|neighbours|] == neighbours;
      if simSum > 0.0 {
        slots[m] := Some(weighted / simSum);
      } else {
        slots[m] := None;
      }
    }
    predictions := slots[..];
  }

  /** The neighbours that rated item m, in their original order. */
  function Raters(ratings: Matrix, ns: seq<Neighbour>, m: nat): (rs: seq<Neighbour>)
    requires NeighboursCover(ratings, ns, m + 1)
    ensures NeighboursCover(ratings, rs, m + 1)
    ensures forall k :: 0 <= k < |rs| ==> RatingOf(ratings, rs[k], m) != 0.0
  {
    if |ns| == 0 then []
    else
      var nb := ns[|ns| - 1];
      Raters(ratings, ns[..|ns| - 1], m) + (if RatingOf(ratings, nb, m) != 0.0 then [nb] else [])
  }

  /** Raters keeps every neighbour that rated item m as often as it occurs in the list,
      and no other. */
  lemma {:induction false} RatersMultiplicity(ratings: Matrix, ns: seq<Neighbour>, m: nat, x: Neighbour)
    requires NeighboursCover(ratings, ns, m + 1)
    requires x.0 < |ratings| && m < |ratings[x.0]|
    ensures multiset(Raters(ratings, ns, m))[x] == if RatingOf(ratings, x, m) != 0.0 then multiset(ns)[x] else 0
  {
    if |ns| != 0 {
      var front := ns[..|ns| - 1];
      var nb := ns[|ns| - 1];
      assert ns == front + [nb];
      RatersMultiplicity(ratings, front, m, x);
    }
  }

  /** Plain sum of the similarities of a list of neighbours. */
  function SumSims(rs: seq<Neighbour>): real
  {
    if |rs| == 0 then 0.0 else SumSims(rs[..|rs| - 1]) + rs[|rs| - 1].1
  }

  /** Plain sum of similarity times rating of item m over a list of neighbours. */
  function SumProducts(ratings: Matrix, rs: seq<Neighbour>, m: nat): real
    requires NeighboursCover(ratings, rs, m + 1)
  {
    if |rs| == 0 then 0.0
    else
      var nb := rs[|rs| - 1];
      SumProducts(ratings, rs[..|rs| - 1], m) + Times(nb.1, RatingOf(ratings, nb, m))
  }

  /** Only the neighbours that rated the item contribute: the two accumulators are
      the plain sums over the raters. */
  lemma {:induction false} OnlyRatersContribute(ratings: Matrix, ns: seq<Neighbour>, m: nat)
    requires NeighboursCover(ratings, ns, m + 1)
    ensures SimTotal(ratings, ns, m) == SumSims(Raters(ratings, ns, m))
    ensures WeightedSum(ratings, ns, m) == SumProducts(ratings, Raters(ratings, ns, m), m)
  {
    if |ns| != 0 {
      var front := ns[..|ns| - 1];
      var nb := ns[|ns| - 1];
      OnlyRatersContribute(ratings, front, m);
      var rs := Raters(ratings, front, m);
      var all := Raters(ratings, ns, m);
      if RatingOf(ratings, nb, m) != 0.0 {
        assert all == rs + [nb];
        assert all[..|all| - 1] == rs;
        assert SumSims(all) == SumSims(rs) + nb.1;
        assert SumProducts(ratings, all, m) == SumProducts(ratings, rs, m) + Times(nb.1, RatingOf(ratings, nb, m));
      } else {
        assert all == rs;
      }
    }
  }

  /** Both accumulators add up over a concatenation of neighbour lists. */
  lemma {:induction false} SumsAppend(ratings: Matrix, ns1: seq<Neighbour>, ns2: seq<Neighbour>, m: nat)
    requires NeighboursCover(ratings, ns1, m + 1) && NeighboursCover(ratings, ns2, m + 1)
    ensures NeighboursCover(ratings, ns1 + ns2, m + 1)
    ensures SimTotal(ratings, ns1 + ns2, m) == SimTotal(ratings, ns1, m) + SimTotal(ratings, ns2, m)
    ensures WeightedSum(ratings, ns1 + ns2, m) == WeightedSum(ratings, ns1, m) + WeightedSum(ratings, ns2, m)
  {
    assert NeighboursCover(ratings, ns1 + ns2, m + 1) by {
      forall k | 0 <= k < |ns1 + ns2|
        ensures (ns1 + ns2)[k].0 < |ratings| && m + 1 <= |ratings[(ns1 + ns2)[k].0]|
      {
        if k >= |ns1| { assert (ns1 + ns2)[k] == ns2[k - |ns1|]; }
      }
    }
    if |ns2| == 0 {
      assert ns1 + ns2 == ns1;
    } else {
      var front := ns2[..|ns2| - 1];
      SumsAppend(ratings, ns1, front, m);
      assert (ns1 + ns2)[..|ns1 + ns2| - 1] == ns1 + front;
    }
  }

  /** The neighbour list is not deduplicated: passing every neighbour twice doubles
      both accumulators, and so leaves every prediction as it was. */
  lemma RepeatedNeighboursCountTwice(ratings: Matrix, target: nat, ns: seq<Neighbour>, m: nat)
    requires target < |ratings| && m < |ratings[target]|
    requires NeighboursCover(ratings, ns, m + 1)
    ensures NeighboursCover(ratings, ns + ns, m + 1)
    ensures SimTotal(ratings, ns + ns, m) == 2.0 * SimTotal(ratings, ns, m)
    ensures WeightedSum(ratings, ns + ns, m) == 2.0 * WeightedSum(ratings, ns, m)
    ensures PredictionSlot(ratings, target, ns + ns, m) == PredictionSlot(ratings, target, ns, m)
  {
    SumsAppend(ratings, ns, ns, m);
    var w, t := WeightedSum(ratings, ns, m), SimTotal(ratings, ns, m);
    if t > 0.0 {
      CancelFactor(w, t, 2.0);
    }
  }

  /** When no neighbour rated item m, nothing is accumulated and the slot stays empty,
      whatever the neighbours' similarities are. */
  lemma {:induction false} NoRaterNoPrediction(ratings: Matrix, target: nat, ns: seq<Neighbour>, m: nat)
    requires target < |ratings| && m < |ratings[target]|
    requires NeighboursCover(ratings, ns, m + 1)
    requires forall k :: 0 <= k < |ns| ==> RatingOf(ratings, ns[k], m) == 0.0
    ensures SimTotal(ratings, ns, m) == 0.0 && WeightedSum(ratings, ns, m) == 0.0
    ensures PredictionSlot(ratings, target, ns, m) == None
  {
    if |ns| != 0 {
      NoRaterNoPrediction(ratings, target, ns[..|ns| - 1], m);
    }
  }

  /** With positive similarities, one neighbour who rated an item the target has not
      rated is enough for a prediction. */
  lemma RaterGivesPrediction(ratings: Matrix, target: nat, ns: seq<Neighbour>, m: nat)
    requires target < |ratings| && m < |ratings[target]|
    requires NeighboursCover(ratings, ns, m + 1)
    requires ratings[target][m] == 0.0
    requires forall k :: 0 <= k < |ns| ==> 0.0 < ns[k].1
    requires exists k :: 0 <= k < |ns| && RatingOf(ratings, ns[k], m) != 0.0
    ensures 0.0 < SimTotal(ratings, ns, m)
    ensures PredictionSlot(ratings, target, ns, m)
              == Some(WeightedSum(ratings, ns, m) / SimTotal(ratings, ns, m))
  {
    SimTotalPositive(ratings, ns, m);
  }

  lemma {:induction false} SimTotalPositive(ratings: Matrix, ns: seq<Neighbour>, m: nat)
    requires NeighboursCover(ratings, ns, m + 1)
    requires forall k :: 0 <= k < |ns| ==> 0.0 < ns[k].1
    ensures 0.0 <= SimTotal(ratings, ns, m)
    ensures (exists k :: 0 <= k < |ns| && RatingOf(ratings, ns[k], m) != 0.0) ==> 0.0 < SimTotal(ratings, ns, m)
  {
    if |ns| != 0 {
      var front := ns[..|ns| - 1];
      SimTotalPositive(ratings, front, m);
      if exists k :: 0 <= k < |ns| && RatingOf(ratings, ns[k], m) != 0.0 {
        var k :| 0 <= k < |ns| && RatingOf(ratings, ns[k], m) != 0.0;
        if k < |ns| - 1 {
          assert front[k] == ns[k];
        }
      }
    }
  }

  /** With non-negative similarities the prediction is a weighted average, so it lies
      between the lowest and the highest rating the contributing neighbours gave. */
  lemma PredictionWithinRatingRange(ratings: Matrix, target: nat, ns: seq<Neighbour>, m: nat, lo: real, hi: real)
    requires target < |ratings| && m < |ratings[target]|
    requires NeighboursCover(ratings, ns, m + 1)
    requires forall k :: 0 <= k < |ns| ==> 0.0 <= ns[k].1
    requires forall k :: 0 <= k < |ns| && RatingOf(ratings, ns[k], m) != 0.0 ==>
               lo <= RatingOf(ratings, ns[k], m) <= hi
    requires PredictionSlot(ratings, target, ns, m).Some?
    ensures lo <= PredictionSlot(ratings, target, ns, m).value <= hi
  {
    WeightedSumBounds(ratings, ns, m, lo, hi);
    QuotientBounds(WeightedSum(ratings, ns, m), SimTotal(ratings, ns, m), lo, hi);
  }

  lemma {:induction false} WeightedSumBounds(ratings: Matrix, ns: seq<Neighbour>, m: nat, lo: real, hi: real)
    requires NeighboursCover(ratings, ns, m + 1)
    requires forall k :: 0 <= k < |ns| ==> 0.0 <= ns[k].1
    requires forall k :: 0 <= k < |ns| && RatingOf(ratings, ns[k], m) != 0.0 ==>
               lo <= RatingOf(ratings, ns[k], m) <= hi
    ensures Times(lo, SimTotal(ratings, ns, m)) <= WeightedSum(ratings, ns, m) <= Times(hi, SimTotal(ratings, ns, m))
  {
    if |ns| != 0 {
      var front := ns[..|ns| - 1];
      var nb := ns[|ns| - 1];
      assert forall k :: 0 <= k < |front| ==> front[k] == ns[k];
      WeightedSumBounds(ratings, front, m, lo, hi);
      var t0, w0 := SimTotal(ratings, front, m), WeightedSum(ratings, front, m);
      var t, w := SimTotal(ratings, ns, m), WeightedSum(ratings, ns, m);
      var rating := RatingOf(ratings, nb, m);
      if rating != 0.0 {
        assert t == t0 + nb.1 && w == w0 + Times(nb.1, rating);
        StepBounds(t0, w0, nb.1, rating, lo, hi, t, w);
      } else {
        assert t == t0 && w == w0;
      }
    }
  }

  // Arithmetic helpers, one nonlinear fact each.

  lemma CancelFactor(w: real, t: real, c: real)
    requires t != 0.0 && c != 0.0
    ensures (c * w) / (c * t) == w / t
  {
  }

  /** Adding one term sim * rating with lo <= rating <= hi and sim >= 0 keeps
      lo * total <= sum <= hi * total. */
  lemma StepBounds(total: real, sum: real, sim: real, rating: real, lo: real, hi: real, total': real, sum': real)
    requires Times(lo, total) <= sum <= Times(hi, total)
    requires 0.0 <= sim && lo <= rating <= hi
    requires total' == total + sim && sum' == sum + Times(sim, rating)
    ensures Times(lo, total') <= sum' <= Times(hi, total')
  {
    MultiplyMonotone(sim, lo, rating);
    MultiplyMonotone(sim, rating, hi);
    calc {
      Times(lo, total');
    ==
      lo * total + lo * sim;
    <=
      sum + sim * rating;
    ==
      sum';
    }
    calc {
      sum';
    ==
      sum + sim * rating;
    <=
      hi * total + hi * sim;
    ==
      Times(hi, total');
    }
  }

  lemma MultiplyMonotone(s: real, x: real, y: real)
    requires 0.0 <= s && x <= y
    ensures s * x <= s * y && x * s <= s * y && s * x <= y * s
  {
  }

  lemma QuotientBounds(w: real, t: real, lo: real, hi: real)
    requires 0.0 < t && Times(lo, t) <= w <= Times(hi, t)
    ensures lo <= w / t <= hi
  {
  }


  lemma ProductPositive(a: real, b: real)
    requires 0.0 < a && 0.0 < b
    ensures 0.0 < a * b
  {
  }

}
