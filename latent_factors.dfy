/** Prediction from a truncated singular value decomposition. The factors U, s and Vt
    of the rating matrix are given; they are cut down to rank k, multiplied back
    together into an approximation of the ratings, and an unrated item's prediction is
    the dot product of the user's latent vector with the item's latent column. */
module LatentFactors {

  import opened Wrappers
  import opened VectorMath

  /** The length of the first row: the column count of a rectangular matrix. */
  function Width(M: Matrix): nat
  {
    if |M| == 0 then 0 else |M[0]|
  }

  /** Every row has the same length. */
  ghost predicate Rectangular(M: Matrix)
  {
    forall i :: 0 <= i < |M| ==> |M[i]| == Width(M)
  }

  /** M has the given numbers of rows and columns. */
  ghost predicate IsMatrix(M: Matrix, rows: nat, cols: nat)
  {
    |M| == rows && forall i :: 0 <= i < rows ==> |M[i]| == cols
  }

  /** Column j of M, top to bottom. */
  function Column(M: Matrix, j: nat): (c: Vector)
    requires forall i :: 0 <= i < |M| ==> j < |M[i]|
    ensures |c| == |M|
    ensures forall i :: 0 <= i < |M| ==> c[i] == M[i][j]
  {
    seq(|M|, i requires 0 <= i < |M| => M[i][j])
  }

  /** The row vector v times the matrix M: component j is v's dot product with
      column j of M. */
  function VecMat(v: Vector, M: Matrix): (w: Vector)
    requires Rectangular(M)
    ensures |w| == Width(M)
    ensures forall j :: 0 <= j < Width(M) ==> w[j] == Dot(v, Column(M, j))
  {
    seq(Width(M), j requires 0 <= j < Width(M) => Dot(v, Column(M, j)))
  }

  /** The matrix product A times B, row by row: row i is row i of A times B. */
  function MatMul(A: Matrix, B: Matrix): (C: Matrix)
    requires Rectangular(B)
    ensures IsMatrix(C, |A|, Width(B))
    ensures forall i :: 0 <= i < |A| ==> C[i] == VecMat(A[i], B)
  {
    seq(|A|, i requires 0 <= i < |A| => VecMat(A[i], B))
  }

  /** The first k columns of every row of M. */
  function FirstColumns(M: Matrix, k: nat): (R: Matrix)
    requires forall i :: 0 <= i < |M| ==> k <= |M[i]|
    ensures IsMatrix(R, |M|, k)
    ensures forall i, r :: 0 <= i < |M| && 0 <= r < k ==> R[i][r] == M[i][r]
  {
    seq(|M|, i requires 0 <= i < |M| => M[i][..k])
  }

  /** The square diagonal matrix with d on its diagonal and zeros elsewhere. */
  function Diag(d: Vector): (D: Matrix)
    ensures IsMatrix(D, |d|, |d|)
    ensures forall i, j :: 0 <= i < |d| && 0 <= j < |d| ==> D[i][j] == if i == j then d[i] else 0.0
  {
    seq(|d|, i requires 0 <= i < |d| => seq(|d|, j requires 0 <= j < |d| => if i == j then d[i] else 0.0))
  }

  /** The rank-k truncation: U_k, S_k, Vt_k, and the approximation U_k S_k Vt_k. */
  datatype Truncation = Truncation(uk: Matrix, sk: Matrix, vtk: Matrix, approx: Matrix)

  /** The factors U (m x p), s (p) and Vt (p x n) have the shapes the decomposition
      produces, and k is at least 1 and at most the number of singular values. */
  ghost predicate Factors(U: Matrix, s: Vector, Vt: Matrix, k: nat)
  {
    && IsMatrix(U, |U|, |s|)
    && IsMatrix(Vt, |s|, Width(Vt))
    && 1 <= k <= |s|
  }

  /** Cuts the factors down to rank k and rebuilds the approximation: U_k is the first
      k columns of U, S_k the k x k diagonal matrix of the first k singular values,
      Vt_k the first k rows of Vt, and the approximation the m x n product
      (U_k S_k) Vt_k. */
  function Truncate(U: Matrix, s: Vector, Vt: Matrix, k: nat): (t: Truncation)
    requires Factors(U, s, Vt, k)
    ensures IsMatrix(t.uk, |U|, k)
    ensures forall i, r :: 0 <= i < |U| && 0 <= r < k ==> t.uk[i][r] == U[i][r]
    ensures IsMatrix(t.sk, k, k)
    ensures forall r, c :: 0 <= r < k && 0 <= c < k ==> t.sk[r][c] == if r == c then s[r] else 0.0
    ensures IsMatrix(t.vtk, k, Width(Vt)) && t.vtk == Vt[..k]
    ensures IsMatrix(t.approx, |U|, Width(Vt))
  {
    var uk := FirstColumns(U, k);
    var sk := Diag(s[..k]);
    var vtk := Vt[..k];
    assert Width(vtk) == Width(Vt);
    Truncation(uk, sk, vtk, MatMul(MatMul(uk, sk), vtk))
  }

  /** The reference value of a rank-k reconstruction entry: the sum over the latent
      factors r in [from, k) of U[i][r] * s[r] * Vt[r][j]. */
  function LatentSum(U: Matrix, s: Vector, Vt: Matrix, i: nat, j: nat, from: nat, k: nat): real
    requires Factors(U, s, Vt, k) && i < |U| && j < Width(Vt)
    decreases k - from
  {
    if from >= k then 0.0
    else U[i][from] * s[from] * Vt[from][j] + LatentSum(U, s, Vt, i, j, from + 1, k)
  }

  /** The user's latent vector: the user's row of U_k times S_k. */
  function UserLatent(uk: Matrix, sk: Matrix, user: nat): Vector
    requires user < |uk| && Rectangular(sk)
  {
    VecMat(uk[user], sk)
  }

  /** A row vector times a diagonal matrix scales each component by the diagonal entry:
      component r of the user's latent vector is U_k[user][r] * s[r]. */
  lemma UserLatentScales(v: Vector, d: Vector, r: nat)
    requires |v| == |d| && r < |d|
    ensures Rectangular(Diag(d))
    ensures VecMat(v, Diag(d))[r] == v[r] * d[r]
  {
    var D := Diag(d);
    assert Width(D) == |d|;
    DotOneHot(v, Column(D, r), r);
  }

  /** The dot product with a vector that is zero except at position r picks out the
      product at r. */
  lemma {:induction false} DotOneHot(v: Vector, w: Vector, r: nat)
    requires |v| == |w| && r < |w|
    requires forall i :: 0 <= i < |w| && i != r ==> w[i] == 0.0
    ensures Dot(v, w) == v[r] * w[r]
  {
    if r == 0 {
      DotZero(v[1..], w[1..]);
    } else {
      assert v[0] * w[0] == 0.0 by { assert w[0] == 0.0; }
      DotOneHot(v[1..], w[1..], r - 1);
    }
  }

  /** The dot product with a zero vector is zero. */
  lemma {:induction false} DotZero(v: Vector, w: Vector)
    requires IsZero(w)
    ensures Dot(v, w) == 0.0
  {
    if |v| != 0 && |w| != 0 {
      assert w[0] == 0.0;
      assert IsZero(w[1..]) by {
        forall i | 0 <= i < |w[1..]| ensures w[1..][i] == 0.0 {
          assert w[1..][i] == w[i + 1];
        }
      }
      DotZero(v[1..], w[1..]);
    }
  }

  /** Each entry of the rank-k approximation is the triple sum
      sum over r < k of U[i][r] * s[r] * Vt[r][j]. */
  lemma ReconstructionEntry(U: Matrix, s: Vector, Vt: Matrix, k: nat, i: nat, j: nat)
    requires Factors(U, s, Vt, k)
    requires i < |U| && j < Width(Vt)
    ensures Truncate(U, s, Vt, k).approx[i][j] == LatentSum(U, s, Vt, i, j, 0, k)
  {
    var t := Truncate(U, s, Vt, k);
    var latent := UserLatent(t.uk, t.sk, i);
    var column := Column(t.vtk, j);
    assert t.sk == Diag(s[..k]);
    assert MatMul(t.uk, t.sk)[i] == latent;
    assert t.approx[i][j] == Dot(latent, column);
    forall r | 0 <= r < k
      ensures latent[r] == U[i][r] * s[r]
    {
      UserLatentScales(t.uk[i], s[..k], r);
    }
    DotMatchesLatentSum(U, s, Vt, i, j, k, latent, column, 0);
  }

  /** The dot product of the user's latent vector with the item's latent column, from
      factor `from` onwards, is the latent sum from `from` onwards. */
  lemma {:induction false} DotMatchesLatentSum(U: Matrix, s: Vector, Vt: Matrix, i: nat, j: nat, k: nat,
                                               latent: Vector, column: Vector, from: nat)
    requires Factors(U, s, Vt, k) && i < |U| && j < Width(Vt)
    requires |latent| == k && |column| == k && from <= k
    requires forall r :: 0 <= r < k ==> latent[r] == U[i][r] * s[r]
    requires forall r :: 0 <= r < k ==> column[r] == Vt[r][j]
    ensures Dot(latent[from..], column[from..]) == LatentSum(U, s, Vt, i, j, from, k)
    decreases k - from
  {
    if from < k {
      assert latent[from..][1..] == latent[from + 1..];
      assert column[from..][1..] == column[from + 1..];
      DotMatchesLatentSum(U, s, Vt, i, j, k, latent, column, from + 1);
    }
  }

  /** The number of prediction slots: the given item count, or by default the number
      of columns of the first rating row. */
  function SlotCount(ratings: Matrix, itemCount: Option<nat>): nat
    requires |ratings| > 0
  {
    match itemCount
    case Some(n) => n
    case None => |ratings[0]|
  }

  /** What the predictor leaves in slot m: nothing for an item the user already rated;
      otherwise the user's latent vector dotted with column m of Vt_k, unclamped. */
  function SvdSlot(uk: Matrix, sk: Matrix, vtk: Matrix, ratings: Matrix, user: nat, m: nat): Option<real>
    requires user < |uk| && Rectangular(sk) && Rectangular(vtk)
    requires |uk[user]| == |sk|
    requires user < |ratings| && m < |ratings[user]|
    requires ratings[user][m] == 0.0 ==> m < Width(vtk) && Width(sk) == |vtk|
  {
    if ratings[user][m] != 0.0 then None
    else Some(Dot(UserLatent(uk, sk, user), Column(vtk, m)))
  }

  /** Predictions for one user: a fresh vector with one slot per item, each slot as
      SvdSlot describes; the factors and the ratings are only read. */
  method PredictSvd(uk: Matrix, sk: Matrix, vtk: Matrix, ratings: Matrix, user: nat, itemCount: Option<nat>)
    returns (predictions: seq<Option<real>>)
    requires user < |uk| && Rectangular(sk) && Rectangular(vtk)
    requires |uk[user]| == |sk|
    requires user < |ratings|
    requires SlotCount(ratings, itemCount) <= |ratings[user]|
    requires forall m :: 0 <= m < SlotCount(ratings, itemCount) && ratings[user][m] == 0.0 ==>
               m < Width(vtk) && Width(sk) == |vtk|
    ensures |predictions| == SlotCount(ratings, itemCount)
    ensures forall m :: 0 <= m < |predictions| ==> predictions[m] == SvdSlot(uk, sk, vtk, ratings, user, m)
  {
    var latent := VecMat(uk[user], sk);
    var observed := ratings[user];
    var n := SlotCount(ratings, itemCount);
    var slots := new Option<real>[n](_ => None);
    for m := 0 to n
      invariant forall j :: 0 <= j < m ==> slots[j] == SvdSlot(uk, sk, vtk, ratings, user, j)
      invariant forall j :: m <= j < n ==> slots[j] == None
    {
      if observed[m] != 0.0 {
        continue;
      }
      var itemLatent := Column(vtk, m);
      slots[m] := Some(Dot(latent, itemLatent));
    }
    predictions := slots[..];
  }

  /** With the truncated factors, every numeric prediction is the corresponding entry of
      the approximation U_k S_k Vt_k, which is the triple sum over the latent factors;
      rated items get no prediction. */
  lemma PredictionMatchesReconstruction(U: Matrix, s: Vector, Vt: Matrix, k: nat, ratings: Matrix, user: nat, m: nat)
    requires Factors(U, s, Vt, k)
    requires user < |U| && m < Width(Vt)
    requires user < |ratings| && m < |ratings[user]|
    ensures var t := Truncate(U, s, Vt, k);
            && Rectangular(t.sk) && Rectangular(t.vtk)
            && |t.uk[user]| == |t.sk| && Width(t.sk) == |t.vtk|
            && SvdSlot(t.uk, t.sk, t.vtk, ratings, user, m) ==
                 (if ratings[user][m] != 0.0 then None else Some(t.approx[user][m]))
            && t.approx[user][m] == LatentSum(U, s, Vt, user, m, 0, k)
  {
    var t := Truncate(U, s, Vt, k);
    assert Width(t.sk) == k && Width(t.vtk) == Width(Vt);
    ReconstructionEntry(U, s, Vt, k, user, m);
    assert MatMul(t.uk, t.sk)[user] == UserLatent(t.uk, t.sk, user);
  }
}
