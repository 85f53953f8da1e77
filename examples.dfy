/** The sample data the recommenders are run on (five users, five films, four binary
    features per film), and what the model says about it. */
module Examples {

  import opened Wrappers
  import opened VectorMath
  import opened SkipPass
  import Collaborative
  import Content
  import LatentFactors

  // Ratings, one row per user, one column per film (Matrix, Avatar, Titanic,
  // Star Wars, Inception); 0.0 means not rated.
  const Ana: Vector := [5.0, 4.0, 2.0, 3.0, 0.0]
  const Carlos: Vector := [4.0, 5.0, 0.0, 2.0, 4.0]
  const Elena: Vector := [0.0, 5.0, 4.0, 4.0, 3.0]
  const David: Vector := [3.0, 0.0, 5.0, 0.0, 5.0]
  const Maria: Vector := [5.0, 3.0, 0.0, 4.0, 0.0]
  const Ratings: Matrix := [Ana, Carlos, Elena, David, Maria]

  // Film features: Matrix, Avatar, Star Wars and Inception share one profile,
  // Titanic has the complementary one.
  const Action: Vector := [1.0, 0.0, 0.0, 1.0]
  const Drama: Vector := [0.0, 1.0, 1.0, 0.0]
  const FilmFeatures: Content.Features := [Action, Action, Drama, Action, Action]

  /** Ana and Carlos have both rated Matrix, Avatar and Star Wars, and nothing else in
      common. */
  lemma AnaCarlosCommonSupport()
    ensures Collaborative.CommonSupport(Ana, Carlos) == [0, 1, 3]
  {
    assert Collaborative.CommonBelow(Ana, Carlos, 1) == [0];
    assert Collaborative.CommonBelow(Ana, Carlos, 2) == [0, 1];
    assert Collaborative.CommonBelow(Ana, Carlos, 3) == [0, 1];
    assert Collaborative.CommonBelow(Ana, Carlos, 4) == [0, 1, 3];
  }

  /** Ana and Maria have likewise rated Matrix, Avatar and Star Wars in common. */
  lemma AnaMariaCommonSupport()
    ensures Collaborative.CommonSupport(Ana, Maria) == [0, 1, 3]
  {
    assert Collaborative.CommonBelow(Ana, Maria, 1) == [0];
    assert Collaborative.CommonBelow(Ana, Maria, 2) == [0, 1];
    assert Collaborative.CommonBelow(Ana, Maria, 3) == [0, 1];
    assert Collaborative.CommonBelow(Ana, Maria, 4) == [0, 1, 3];
  }

  /** Maria's similarity to Ana is 49/50: on their common films (Matrix, Avatar,
      Star Wars) the restricted rows are [5, 4, 3] and [5, 3, 4], whose dot product is 49
      and whose norms are both the square root of 50. */
  lemma MariaAnaSimilarity(sqrt: real -> real)
    requires IsSqrt(sqrt)
    ensures Collaborative.CompareUsers(Ana, Maria, 4, sqrt).sim == 49.0 / 50.0
  {
    var common := [0, 1, 3];
    AnaMariaCommonSupport();
    Collaborative.RestrictEntries(Ana, common);
    Collaborative.RestrictEntries(Maria, common);
    var a, b := Collaborative.Restrict(Ana, common), Collaborative.Restrict(Maria, common);
    assert a == [5.0, 4.0, 3.0];
    assert b == [5.0, 3.0, 4.0];
    assert Collaborative.CompareUsers(Ana, Maria, 4, sqrt).sim == CosineByDenominator(a, b, sqrt);
    RestrictedSimilarity(sqrt);
  }

  /** The cosine of [5, 4, 3] and [5, 3, 4]: both have squared norm 50, and their dot
      product is 49. */
  lemma RestrictedSimilarity(sqrt: real -> real)
    requires IsSqrt(sqrt)
    ensures Cosine([5.0, 4.0, 3.0], [5.0, 3.0, 4.0], sqrt) == 49.0 / 50.0
  {
    var a, b := [5.0, 4.0, 3.0], [5.0, 3.0, 4.0];
    assert a[1..] == [4.0, 3.0] && a[1..][1..] == [3.0];
    assert b[1..] == [3.0, 4.0] && b[1..][1..] == [4.0];
    assert Dot(a, b) == 49.0;
    assert SumSquares(a) == 50.0 && SumSquares(b) == 50.0;
    var mag := Magnitude(a, sqrt);
    assert Magnitude(b, sqrt) == mag;
    assert mag * mag == 50.0 by { assert Square(mag) == 50.0; }
  }

  /** With Elena and Maria as Ana's neighbours, Ana's prediction for Inception is 3.0
      whatever the two similarities are, provided Elena's is positive: Maria has not
      rated Inception, so only Elena's rating of 3 enters the weighted average. */
  lemma AnaInceptionPrediction(simElena: real, simMaria: real)
    requires 0.0 < simElena
    ensures Collaborative.PredictionSlot(Ratings, 0, [(2, simElena), (4, simMaria)], 4) == Some(3.0)
  {
    var ns: seq<Collaborative.Neighbour> := [(2, simElena), (4, simMaria)];
    assert Ratings[2][4] == 3.0 && Ratings[4][4] == 0.0;
    var first := ns[..1];
    assert first[..0] == [];
    assert Collaborative.SimTotal(Ratings, first, 4) == simElena;
    assert Collaborative.WeightedSum(Ratings, first, 4) == Times(simElena, 3.0);
    assert ns[..|ns| - 1] == first;
    assert Times(simElena, 3.0) / simElena == 3.0;
  }

  /** A neighbour's row may be shorter than the target's, as long as it reaches every
      item the target rated: with [5, 0] against [4], the common support is [0] and the
      comparison holds the restricted rows [5] and [4]. */
  lemma ShorterRowCompared(sqrt: real -> real)
    requires IsSqrt(sqrt)
    ensures Collaborative.CoversRated([5.0, 0.0], [4.0])
    ensures Collaborative.CommonSupport([5.0, 0.0], [4.0]) == [0]
    ensures var r := Collaborative.CompareUsers([5.0, 0.0], [4.0], 1, sqrt);
            r.vecA == Some([5.0]) && r.vecB == Some([4.0])
  {
    var a, b := [5.0, 0.0], [4.0];
    assert Collaborative.CommonBelow(a, b, 1) == [0];
    assert Collaborative.CommonBelow(a, b, 2) == [0];
    assert Collaborative.Restrict(a, [0]) == [5.0] by { assert [0][..0] == []; }
    assert Collaborative.Restrict(b, [0]) == [4.0] by { assert [0][..0] == []; }
  }

  /** The films most like Matrix: Avatar, Star Wars and Inception with similarity 1
      (in film order, the ties a stable sort keeps), then Titanic with similarity 0.
      Every ranking the sort may return is this one. */
  lemma MatrixRanking(sqrt: real -> real, ranking: seq<Content.Scored>)
    requires IsSqrt(sqrt)
    requires multiset(ranking) == multiset(Content.Comparisons(FilmFeatures, 0, sqrt))
    requires Content.Ranked(ranking)
    ensures ranking == [Content.Scored(1, 1.0), Content.Scored(3, 1.0), Content.Scored(4, 1.0), Content.Scored(2, 0.0)]
  {
    FilmComparisons(sqrt);
    ExpectedRanking();
    Content.RankingIsUnique(ranking, [Content.Scored(1, 1.0), Content.Scored(3, 1.0), Content.Scored(4, 1.0), Content.Scored(2, 0.0)]);
  }

  /** Sorting the comparisons with Matrix by similarity, highest first and ties in film
      order, gives Avatar, Star Wars, Inception, Titanic. */
  lemma ExpectedRanking()
    ensures var expected := [Content.Scored(1, 1.0), Content.Scored(3, 1.0), Content.Scored(4, 1.0), Content.Scored(2, 0.0)];
            && Content.Ranked(expected)
            && multiset(expected)
               == multiset([Content.Scored(1, 1.0), Content.Scored(2, 0.0), Content.Scored(3, 1.0), Content.Scored(4, 1.0)])
  {
    var avatar, titanic, starWars, inception :=
      Content.Scored(1, 1.0), Content.Scored(2, 0.0), Content.Scored(3, 1.0), Content.Scored(4, 1.0);
    var expected := [avatar, starWars, inception, titanic];
    assert Content.Ranked(expected) by {
      assert Content.Before(avatar, starWars) && Content.Before(starWars, inception);
      assert Content.Before(avatar, inception) && Content.Before(inception, titanic);
      assert Content.Before(avatar, titanic) && Content.Before(starWars, titanic);
    }
    assert multiset(expected) == multiset{avatar, starWars, inception, titanic};
    assert multiset([avatar, titanic, starWars, inception]) == multiset{avatar, titanic, starWars, inception};
  }

  /** The comparisons with Matrix, in film order: Avatar, Star Wars and Inception have
      Matrix's own feature vector (similarity 1), Titanic's is orthogonal to it
      (similarity 0). */
  lemma FilmComparisons(sqrt: real -> real)
    requires IsSqrt(sqrt)
    ensures Content.Comparisons(FilmFeatures, 0, sqrt)
            == [Content.Scored(1, 1.0), Content.Scored(2, 0.0), Content.Scored(3, 1.0), Content.Scored(4, 1.0)]
  {
    assert Dot(Action, Drama) == 0.0 by {
      assert Action[1..] == [0.0, 0.0, 1.0] && Drama[1..] == [1.0, 1.0, 0.0];
      assert Action[1..][1..] == [0.0, 1.0] && Drama[1..][1..] == [1.0, 0.0];
      assert Action[1..][1..][1..] == [1.0] && Drama[1..][1..][1..] == [0.0];
    }
    assert Cosine(Action, Action, sqrt) == 1.0 by {
      assert !IsZero(Action) by { assert Action[0] != 0.0; }
      CosineSelf(Action, sqrt);
    }
    assert FilmFeatures[0] == Action && FilmFeatures[1] == Action && FilmFeatures[2] == Drama;
    assert FilmFeatures[3] == Action && FilmFeatures[4] == Action;
    var cs := Content.Comparisons(FilmFeatures, 0, sqrt);
    assert cs[0] == Content.Scored(1, 1.0);
    assert cs[1] == Content.Scored(2, 0.0);
    assert cs[2] == Content.Scored(3, 1.0);
    assert cs[3] == Content.Scored(4, 1.0);
  }

  /** Latent-factor predictions are not clamped to the rating scale: with one latent
      factor, U = [[1]], s = [1] and Vt = [[-1]], an unrated item is predicted -1. */
  lemma NegativeLatentPrediction()
    ensures var t := LatentFactors.Truncate([[1.0]], [1.0], [[-1.0]], 1);
            && LatentFactors.Rectangular(t.sk) && LatentFactors.Rectangular(t.vtk)
            && |t.uk[0]| == |t.sk| && LatentFactors.Width(t.sk) == |t.vtk|
            && LatentFactors.SvdSlot(t.uk, t.sk, t.vtk, [[0.0]], 0, 0) == Some(-1.0)
  {
    var U, s, Vt := [[1.0]], [1.0], [[-1.0]];
    assert LatentFactors.Width(Vt) == 1;
    LatentFactors.PredictionMatchesReconstruction(U, s, Vt, 1, [[0.0]], 0, 0);
    assert LatentFactors.LatentSum(U, s, Vt, 0, 0, 0, 1) == -1.0;
  }
}
