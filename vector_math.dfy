/** Vector helpers shared by the collaborative and the content recommenders:
    the dot product, the Euclidean norm and the cosine similarity, over real vectors.
    The square root is not computed here; it is a parameter that behaves as a square
    root on the non-negative reals. */
module VectorMath {

  type Vector = seq<real>

  /** A matrix as a sequence of rows: one row per user (or latent factor), one column
      per item. */
  type Matrix = seq<seq<real>>

  /** x * x, kept behind a name (as is `Times`) so that proofs can treat the product
      as a single term and bring in its arithmetic only where a step needs it. */
  function Square(x: real): real
  {
    x * x
  }

  function Times(x: real, y: real): real
  {
    x * y
  }

  /** `sqrt` is a square root on the non-negative reals. */
  ghost predicate IsSqrt(sqrt: real -> real)
  {
    forall x: real :: 0.0 <= x ==> 0.0 <= sqrt(x) && Square(sqrt(x)) == x
  }

  /** True when every component of `v` is zero. */
  ghost predicate IsZero(v: Vector)
  {
    forall i :: 0 <= i < |v| ==> v[i] == 0.0
  }

  /** Sum of a[i] * b[i] over the positions both vectors have: as with a zip,
      the surplus of the longer vector is ignored. */
  function Dot(a: Vector, b: Vector): real
  {
    if |a| == 0 || |b| == 0 then 0.0 else a[0] * b[0] + Dot(a[1..], b[1..])
  }

  /** Sum of the squared components: never negative, and zero exactly for the zero vector. */
  function SumSquares(v: Vector): (r: real)
    ensures 0.0 <= r
    ensures r == 0.0 <==> IsZero(v)
  {
    if |v| == 0 then 0.0
    else
      var rest := SumSquares(v[1..]);
      assert IsZero(v) <==> v[0] == 0.0 && IsZero(v[1..]) by {
        if v[0] == 0.0 && IsZero(v[1..]) {
          forall i | 0 <= i < |v| ensures v[i] == 0.0 {
            if i > 0 { assert v[i] == v[1..][i - 1]; }
          }
        }
      }
      SquareSign(v[0]);
      Square(v[0]) + rest
  }

  /** Euclidean norm ||v||: the square root of the sum of squares; never negative,
      and zero exactly for the zero vector. */
  function Magnitude(v: Vector, sqrt: real -> real): (r: real)
    requires IsSqrt(sqrt)
    ensures 0.0 <= r
    ensures Square(r) == SumSquares(v)
    ensures r == 0.0 <==> IsZero(v)
  {
    var r := sqrt(SumSquares(v));
    SquareSign(r);
    r
  }

  /** Cosine similarity: dot(a, b) / (||a|| * ||b||), and exactly 0.0 when either
      vector has zero magnitude. */
  function Cosine(a: Vector, b: Vector, sqrt: real -> real): (r: real)
    requires IsSqrt(sqrt)
    ensures IsZero(a) || IsZero(b) ==> r == 0.0
  {
    var dot := Dot(a, b);
    var magA := Magnitude(a, sqrt);
    var magB := Magnitude(b, sqrt);
    if magA == 0.0 || magB == 0.0 then 0.0 else dot / (magA * magB)
  }

  /** The same similarity written as the recommenders' detail routines write it:
      the quotient by the product of the norms, or 0.0 when that product is zero.
      Over the reals it agrees with `Cosine` on every input. */
  function CosineByDenominator(a: Vector, b: Vector, sqrt: real -> real): (r: real)
    requires IsSqrt(sqrt)
    ensures r == Cosine(a, b, sqrt)
  {
    var dot := Dot(a, b);
    var denom := Magnitude(a, sqrt) * Magnitude(b, sqrt);
    ProductZero(Magnitude(a, sqrt), Magnitude(b, sqrt));
    if denom != 0.0 then dot / denom else 0.0
  }

  /** The dot product is symmetric. */
  lemma {:induction false} DotSymmetric(a: Vector, b: Vector)
    ensures Dot(a, b) == Dot(b, a)
  {
    if |a| != 0 && |b| != 0 {
      DotSymmetric(a[1..], b[1..]);
    }
  }

  /** Like a zip, the dot product only looks at the first min(|a|, |b|) positions. */
  lemma {:induction false} DotTruncates(a: Vector, b: Vector, n: nat)
    requires n == if |a| <= |b| then |a| else |b|
    ensures Dot(a, b) == Dot(a[..n], b[..n])
  {
    if n != 0 {
      assert a[..n][1..] == a[1..][..n - 1];
      assert b[..n][1..] == b[1..][..n - 1];
      DotTruncates(a[1..], b[1..], n - 1);
    }
  }

  /** A vector's dot product with itself is its sum of squares. */
  lemma {:induction false} DotSelf(v: Vector)
    ensures Dot(v, v) == SumSquares(v)
  {
    if |v| != 0 {
      DotSelf(v[1..]);
      assert v[0] * v[0] == Square(v[0]);
    }
  }

  /** Cosine similarity is symmetric. */
  lemma CosineSymmetric(a: Vector, b: Vector, sqrt: real -> real)
    requires IsSqrt(sqrt)
    ensures Cosine(a, b, sqrt) == Cosine(b, a, sqrt)
  {
    DotSymmetric(a, b);
    var magA, magB := Magnitude(a, sqrt), Magnitude(b, sqrt);
    assert magA * magB == magB * magA;
  }

  /** A non-zero vector has similarity exactly 1 with itself ("same pattern"). */
  lemma CosineSelf(v: Vector, sqrt: real -> real)
    requires IsSqrt(sqrt)
    requires !IsZero(v)
    ensures Cosine(v, v, sqrt) == 1.0
  {
    DotSelf(v);
    var mag := Magnitude(v, sqrt);
    SquareSign(mag);
    DivideSelf(Square(mag));
    calc {
      Cosine(v, v, sqrt);
      Dot(v, v) / (mag * mag);
      Square(mag) / Square(mag);
      1.0;
    }
  }

  // Arithmetic helpers. Each states one nonlinear fact on its own, so that the
  // proofs above only ever combine them linearly.

  lemma SquareSign(x: real)
    ensures 0.0 <= Square(x)
    ensures x != 0.0 ==> 0.0 < Square(x)
  {
    if x > 0.0 {
      calc { Square(x); == x * x; > 0.0; }
    } else if x < 0.0 {
      calc { Square(x); == x * x; > 0.0; }
    } else {
      calc { Square(x); == x * x; == 0.0; }
    }
  }

  lemma ProductZero(a: real, b: real)
    ensures a * b == 0.0 <==> a == 0.0 || b == 0.0
  {
  }

  lemma DivideSelf(x: real)
    requires x != 0.0
    ensures x / x == 1.0
  {
  }

}
