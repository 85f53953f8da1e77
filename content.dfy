/** Content-based ranking: a target item's feature vector is compared with the feature
    vector of every other item by cosine similarity, and the comparisons are sorted by
    similarity, highest first, with a stable sort. */
module Content {

  import opened VectorMath
  import opened SkipPass

  /** One feature vector per item. */
  type Features = seq<Vector>

  /** One comparison: the other item's index and its similarity to the target. */
  datatype Scored = Scored(index: nat, sim: real)

  /** The comparison of the target item with item i: the cosine similarity of their
      feature vectors, 0.0 when either vector is all zeros. */
  function CompareItems(features: Features, target: nat, i: nat, sqrt: real -> real): (r: Scored)
    requires target < |features| && i < |features|
    requires IsSqrt(sqrt)
    ensures r.index == i
    ensures r.sim == Cosine(features[target], features[i], sqrt)
    ensures IsZero(features[target]) || IsZero(features[i]) ==> r.sim == 0.0
  {
    Scored(i, CosineByDenominator(features[target], features[i], sqrt))
  }

  /** The comparisons before sorting: one per item other than the target, in item order. */
  function Comparisons(features: Features, target: nat, sqrt: real -> real): (cs: seq<Scored>)
    requires target < |features|
    requires IsSqrt(sqrt)
    ensures |cs| == |features| - 1
    ensures forall k :: 0 <= k < |cs| ==>
              OtherRow(k, target) < |features| &&
              cs[k] == CompareItems(features, target, OtherRow(k, target), sqrt)
  {
    seq(|features| - 1, k requires 0 <= k < |features| - 1 =>
      CompareItems(features, target, OtherRow(k, target), sqrt))
  }

  /** x comes before y in the ranking: a higher similarity first, and among equal
      similarities the lower item index first (the order a stable sort keeps). */
  predicate Before(x: Scored, y: Scored)
  {
    x.sim > y.sim || (x.sim == y.sim && x.index < y.index)
  }

  /** Every entry comes before every later entry. */
  predicate Ranked(s: seq<Scored>)
  {
    forall k, l :: 0 <= k < l < |s| ==> Before(s[k], s[l])
  }

  /** Item indices strictly ascending: the order in which the comparisons are made. */
  predicate IndexAscending(s: seq<Scored>)
  {
    forall k, l :: 0 <= k < l < |s| ==> s[k].index < s[l].index
  }

  /** Stable sort of `a` by similarity, highest first. The entries arrive in ascending
      index order, so stability puts equal similarities in ascending index order; the
      result is a rearrangement of the input. */
  method SortBySimilarity(a: array<Scored>)
    modifies a
    requires IndexAscending(a[..])
    ensures Ranked(a[..])
    ensures multiset(a[..]) == multiset(old(a[..]))
  {
    ghost var original := a[..];
    var n := a.Length;
    var i := 0;
    while i < n
      invariant 0 <= i <= n
      invariant SortedUpTo(original, a[..], i)
    {
      ghost var before := a[..];
      var j := InsertNext(a, i);
      InsertionStep(original, before, a[..], i, j);
      i := i + 1;
    }
    assert a[..] == a[..n] && original == original[..n];
  }

  /** The state of the insertion sort of `original` after i entries: `current` is ranked
      on its first i entries, which are the first i entries of `original` rearranged and
      have lower indices than the next entry; from i on it is still `original`. */
  ghost predicate SortedUpTo(original: seq<Scored>, current: seq<Scored>, i: nat)
  {
    && i <= |current| == |original|
    && IndexAscending(original)
    && Ranked(current[..i])
    && multiset(current[..i]) == multiset(original[..i])
    && current[i..] == original[i..]
    && (i < |current| ==> forall k :: 0 <= k < i ==> current[k].index < current[i].index)
  }

  /** B is A after entry i has moved to position j <= i: the entries before j stay,
      the entries from j to i - 1 shift one place right, the rest stay. */
  ghost predicate MovedTo(A: seq<Scored>, B: seq<Scored>, i: nat, j: nat)
  {
    && j <= i < |A| == |B|
    && (forall k :: 0 <= k < j ==> B[k] == A[k])
    && B[j] == A[i]
    && (forall k :: j < k <= i ==> B[k] == A[k - 1])
    && (forall k :: i < k < |A| ==> B[k] == A[k])
  }

  /** Position j is where entry i of A belongs among the entries before it: after
      every entry whose similarity is at least its own, before those with a lower one. */
  ghost predicate SettlesAt(A: seq<Scored>, i: nat, j: nat)
    requires j <= i < |A|
  {
    && (j > 0 ==> A[j - 1].sim >= A[i].sim)
    && (forall k :: j <= k < i ==> A[k].sim < A[i].sim)
  }

  /** One step of the insertion sort: a[i] moves left past the entries just before it
      that have a lower similarity, which shift one place right, and lands at position j.
      Nothing else moves. */
  method InsertNext(a: array<Scored>, i: nat) returns (j: nat)
    modifies a
    requires i < a.Length
    ensures MovedTo(old(a[..]), a[..], i, j)
    ensures SettlesAt(old(a[..]), i, j)
  {
    var x := a[i];
    j := i;
    while j > 0 && a[j - 1].sim < x.sim
      invariant 0 <= j <= i
      invariant forall k :: 0 <= k < j ==> a[k] == old(a[k])
      invariant forall k :: j < k <= i ==> a[k] == old(a[k - 1])
      invariant forall k :: j <= k < i ==> old(a[k]).sim < x.sim
      invariant forall k :: i < k < a.Length ==> a[k] == old(a[k])
    {
      a[j] := a[j - 1];
      j := j - 1;
    }
    a[j] := x;
  }

  /** One insertion step moves the sort forward by one entry: moving entry i of A to
      the position where it settles turns the state after i entries into the state
      after i + 1. */
  lemma InsertionStep(original: seq<Scored>, A: seq<Scored>, B: seq<Scored>, i: nat, j: nat)
    requires i < |A|
    requires SortedUpTo(original, A, i)
    requires MovedTo(A, B, i, j)
    requires SettlesAt(A, i, j)
    ensures SortedUpTo(original, B, i + 1)
  {
    assert Ranked(B[..i + 1]) by {
      ShiftShape(A, B, i, j);
      InsertKeepsOrder(A[..i], A[i], j);
    }
    assert A[i] == original[i] by {
      assert A[i..][0] == original[i..][0];
    }
    assert multiset(B[..i + 1]) == multiset(original[..i + 1]) by {
      ShiftShape(A, B, i, j);
      InsertPermutes(A[..i], A[i], j);
      assert original[..i + 1] == original[..i] + [A[i]];
    }
    assert B[i + 1..] == original[i + 1..] by {
      ShiftShape(A, B, i, j);
      assert A[i + 1..] == A[i..][1..];
      assert original[i + 1..] == original[i..][1..];
    }
    if i + 1 < |B| {
      assert B[i + 1] == original[i + 1] by {
        assert B[i + 1..][0] == original[i + 1..][0];
      }
      forall k | 0 <= k < i + 1
        ensures B[k].index < B[i + 1].index
      {
        assert original[i].index < original[i + 1].index;
        if k < j {
          assert B[k] == A[k];
        } else if j < k {
          assert B[k] == A[k - 1];
        }
      }
    }
  }

  /** The position-by-position description of an insertion step, as sequences. */
  lemma ShiftShape(A: seq<Scored>, B: seq<Scored>, i: nat, j: nat)
    requires MovedTo(A, B, i, j)
    ensures B[..i + 1] == A[..i][..j] + [A[i]] + A[..i][j..]
    ensures B[i + 1..] == A[i + 1..]
  {
  }

  /** Putting x at position j of P holds the same entries as appending it. */
  lemma InsertPermutes(P: seq<Scored>, x: Scored, j: nat)
    requires j <= |P|
    ensures multiset(P[..j] + [x] + P[j..]) == multiset(P + [x])
  {
    assert P == P[..j] + P[j..];
  }

  /** Inserting x into a ranked sequence after every entry whose similarity is at least
      x's (and whose index is lower) and before every entry whose similarity is lower
      keeps the sequence ranked. */
  lemma InsertKeepsOrder(S: seq<Scored>, x: Scored, j: nat)
    requires Ranked(S)
    requires j <= |S|
    requires forall k :: 0 <= k < |S| ==> S[k].index < x.index
    requires j > 0 ==> S[j - 1].sim >= x.sim
    requires forall k :: j <= k < |S| ==> S[k].sim < x.sim
    ensures Ranked(S[..j] + [x] + S[j..])
  {
    var T := S[..j] + [x] + S[j..];
    assert forall k :: 0 <= k < j ==> T[k] == S[k];
    assert forall k :: j < k < |T| ==> T[k] == S[k - 1];
    forall k, l | 0 <= k < l < |T|
      ensures Before(T[k], T[l])
    {
      if l < j {
        assert Before(S[k], S[l]);
      } else if l == j {
        if k < j - 1 {
          assert Before(S[k], S[j - 1]);
        }
      } else if k < j {
        assert Before(S[k], S[l - 1]);
      } else if j < k {
        assert Before(S[k - 1], S[l - 1]);
      }
    }
  }

  /** The ranking of the target item against every other item: the comparisons made in
      item order, then sorted by similarity, highest first, ties in index order. */
  method RankBySimilarity(features: Features, target: nat, sqrt: real -> real)
    returns (ranking: seq<Scored>)
    requires target < |features|
    requires IsSqrt(sqrt)
    ensures |ranking| == |features| - 1
    ensures multiset(ranking) == multiset(Comparisons(features, target, sqrt))
    ensures Ranked(ranking)
  {
    var results: seq<Scored> := [];
    var i := 0;
    while i < |features|
      invariant 0 <= i <= |features|
      invariant |results| == if i <= target then i else i - 1
      invariant forall k :: 0 <= k < |results| ==>
                  OtherRow(k, target) < i &&
                  results[k] == CompareItems(features, target, OtherRow(k, target), sqrt)
    {
      if i != target {
        results := results + [CompareItems(features, target, i, sqrt)];
      }
      i := i + 1;
    }
    assert results == Comparisons(features, target, sqrt);
    var a := new Scored[|results|](k requires 0 <= k < |results| => results[k]);
    assert a[..] == results;
    assert IndexAscending(results) by {
      forall k, l | 0 <= k < l < |results|
        ensures results[k].index < results[l].index
      {
        assert OtherRow(k, target) < OtherRow(l, target);
      }
    }
    SortBySimilarity(a);
    ranking := a[..];
    assert |multiset(ranking)| == |multiset(results)|;
  }

  /** Two ranked sequences holding the same entries are the same sequence: the ranking
      is the only order the stable descending sort can produce. */
  lemma {:induction false} RankingIsUnique(s: seq<Scored>, t: seq<Scored>)
    requires Ranked(s) && Ranked(t)
    requires multiset(s) == multiset(t)
    ensures s == t
  {
    if |s| == 0 {
      assert |t| == |multiset(t)| == 0;
    } else {
      assert s[0] in multiset(t);
      assert t[0] in multiset(s);
      FirstComesFirst(s, t[0]);
      FirstComesFirst(t, s[0]);
      assert s[0] == t[0];
      RestOfRanking(s);
      RestOfRanking(t);
      assert multiset(s[1..]) == multiset(s) - multiset{s[0]};
      assert multiset(t[1..]) == multiset(t) - multiset{t[0]};
      RankingIsUnique(s[1..], t[1..]);
      assert s == [s[0]] + s[1..] && t == [t[0]] + t[1..];
    }
  }

  /** The first entry of a ranking comes before every other entry in it. */
  lemma FirstComesFirst(s: seq<Scored>, y: Scored)
    requires Ranked(s)
    requires y in s
    ensures y == s[0] || Before(s[0], y)
  {
  }

  /** Removing the first entry of a ranking leaves a ranking. */
  lemma RestOfRanking(s: seq<Scored>)
    requires Ranked(s) && |s| > 0
    ensures Ranked(s[1..])
    ensures s == [s[0]] + s[1..]
  {
    forall k, l | 0 <= k < l < |s| - 1
      ensures Before(s[1..][k], s[1..][l])
    {
      assert Before(s[k + 1], s[l + 1]);
    }
  }

  /** The item indices occurring in a list of comparisons. */
  function ItemsOf(s: seq<Scored>): set<nat>
  {
    set k | 0 <= k < |s| :: s[k].index
  }

  /** What the ranking holds: each item other than the target exactly once, each with
      its cosine similarity to the target. */
  lemma RankingCoversOtherItems(features: Features, target: nat, sqrt: real -> real, ranking: seq<Scored>)
    requires target < |features|
    requires IsSqrt(sqrt)
    requires multiset(ranking) == multiset(Comparisons(features, target, sqrt))
    ensures forall k :: 0 <= k < |ranking| ==>
              ranking[k].index < |features| && ranking[k].index != target &&
              ranking[k].sim == Cosine(features[target], features[ranking[k].index], sqrt)
    ensures forall i :: 0 <= i < |features| ==> (i in ItemsOf(ranking) <==> i != target)
    ensures forall k, l :: 0 <= k < l < |ranking| ==> ranking[k].index != ranking[l].index
  {
    var cs := Comparisons(features, target, sqrt);
    forall k | 0 <= k < |ranking|
      ensures ranking[k].index < |features| && ranking[k].index != target &&
              ranking[k].sim == Cosine(features[target], features[ranking[k].index], sqrt)
    {
      assert ranking[k] in multiset(cs);
    }
    forall i | 0 <= i < |features| && i != target
      ensures i in ItemsOf(ranking)
    {
      var p := PositionOfRow(i, target);
      assert cs[p] in multiset(ranking);
      var k :| 0 <= k < |ranking| && ranking[k] == cs[p];
      assert ranking[k].index == i;
    }
    forall k, l | 0 <= k < l < |ranking|
      ensures ranking[k].index != ranking[l].index
    {
      if ranking[k].index == ranking[l].index {
        assert ranking[k] == ranking[l];
        ComparisonsDistinct(features, target, sqrt);
        MultisetMultiplicityOne(ranking, cs, k, l);
      }
    }
  }

  /** The comparisons are all different entries: their item indices differ. */
  lemma ComparisonsDistinct(features: Features, target: nat, sqrt: real -> real)
    requires target < |features|
    requires IsSqrt(sqrt)
    ensures forall k, l :: 0 <= k < l < |Comparisons(features, target, sqrt)| ==>
              Comparisons(features, target, sqrt)[k] != Comparisons(features, target, sqrt)[l]
  {
    var cs := Comparisons(features, target, sqrt);
    forall k, l | 0 <= k < l < |cs|
      ensures cs[k] != cs[l]
    {
      assert OtherRow(k, target) < OtherRow(l, target);
    }
  }

  /** A sequence with the same multiset as a duplicate-free sequence has no duplicates. */
  lemma MultisetMultiplicityOne(s: seq<Scored>, t: seq<Scored>, k: nat, l: nat)
    requires multiset(s) == multiset(t)
    requires forall i, j :: 0 <= i < j < |t| ==> t[i] != t[j]
    requires k < l < |s|
    ensures s[k] != s[l]
  {
    if s[k] == s[l] {
      var x := s[k];
      assert s == s[..k] + [x] + s[k + 1..l] + [x] + s[l + 1..];
      assert multiset(s)[x] >= 2;
      DistinctMultiplicity(t, x);
      assert false;
    }
  }

  lemma {:induction false} DistinctMultiplicity(t: seq<Scored>, x: Scored)
    requires forall i, j :: 0 <= i < j < |t| ==> t[i] != t[j]
    ensures multiset(t)[x] <= 1
  {
    if |t| != 0 {
      var r := t[..|t| - 1];
      assert t == r + [t[|t| - 1]];
      DistinctMultiplicity(r, x);
      if t[|t| - 1] == x {
        assert x !in r;
      }
    }
  }
}
