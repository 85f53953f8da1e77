# Recommender predictors over a rating matrix

This project models, in Dafny, the three small recommenders of the repository. All
three work on a rating matrix with one row per user and one column per film, where 0
means "not rated".

- **User-based collaborative filtering** (`colaborativo.py`).
  - The target user is compared with every other user.
  - Each comparison uses the cosine similarity of the two rows, restricted to the
    films both have rated (the *common support*).
  - For each film the target has not rated, the prediction is the similarity-weighted
    average of the ratings the chosen neighbours gave it. There is no prediction when
    the neighbours' similarity total is not positive.
- **Content-based ranking** (`contenido.py`).
  - A target film's feature vector is compared by cosine similarity with every other
    film's.
  - The comparisons are then sorted by similarity, highest first, with a stable sort.
- **Truncated-SVD prediction** (`svd_system.py`).
  - The factors `U`, `s`, `Vt` of the rating matrix are cut down to rank k, and the
    approximation `U_k S_k Vt_k` is rebuilt.
  - For a film the user has not rated, the prediction is the user's latent vector
    `U_k[u] S_k` dotted with the film's column of `Vt_k`.

Modules:

- `Wrappers` (`wrappers.dfy`): `Option`, the `None` slot of a prediction vector.
- `VectorMath` (`vector_math.dfy`): the dot product, Euclidean norm and cosine
  similarity, which both `colaborativo.py` and `contenido.py` define. They are
  defined once here; `contenido.py:15-33` is the same code as `colaborativo.py:17-40`.
  Also the matrix type, a sequence of rows.
- `SkipPass` (`skip_pass.dfy`): the numbering of the pass over all rows that skips
  the target's row, which both similarity listings make.
- `Collaborative` (`collaborative.dfy`):
  - the common support and the restricted rows;
  - one comparison and the listing of all comparisons (a loop that appends);
  - the predictor (a loop that fills a preallocated vector, with an inner loop over
    the neighbours that updates two accumulators);
  - lemmas on the accumulators.
- `Content` (`content.dfy`):
  - the comparisons;
  - an in-place stable sort on an array;
  - the ranking;
  - the proof that the ranking is the only sorted order of the comparisons and
    covers every other film exactly once.
- `LatentFactors` (`latent_factors.dfy`):
  - column slicing, the diagonal matrix, matrix products and the truncation;
  - the reconstruction entry as a triple sum;
  - the predictor (a loop over items);
  - the identity between a prediction and a reconstruction entry.
- `Examples` (`examples.dfy`): the sample matrices of `main.py`, and what the model
  says about them.

The square root is a parameter `sqrt: real -> real` of every function that needs it.
It is constrained by `VectorMath.IsSqrt`: on non-negative inputs it is non-negative
and squares back to its input.

## Model

| member | source | states |
|---|---|---|
| VectorMath.DotSymmetric | colaborativo.py:26 | the dot product is symmetric in its two arguments |
| VectorMath.DotTruncates | colaborativo.py:26 | like `zip`, the dot product only sees the positions both vectors have: it equals the dot product of both vectors cut to the shorter length |
| VectorMath.DotSelf | colaborativo.py:26 | a vector dotted with itself is its sum of squares |
| VectorMath.SumSquares | colaborativo.py:40 | the sum of squares is non-negative, and zero exactly when every component is zero |
| VectorMath.Magnitude | colaborativo.py:40 | the norm is non-negative, squares to the sum of squares, and is zero exactly for the all-zero vector |
| VectorMath.Cosine | colaborativo.py:57-65 | the similarity is 0.0 when either vector has only zero components (zero magnitude) |
| VectorMath.CosineByDenominator | colaborativo.py:126-130 | the detail routine's form, quotient by the product of norms or 0.0 when that product is zero, equals the cosine similarity on every input |
| VectorMath.CosineSymmetric | colaborativo.py:48-65 | the cosine similarity is symmetric |
| VectorMath.CosineSelf | colaborativo.py:52 | a non-zero vector has similarity exactly 1 with itself |
| SkipPass.OtherRow | colaborativo.py:87-89 | the k-th row visited by a pass that skips the target is never the target, and is k or k + 1 |
| SkipPass.PositionOfRow | colaborativo.py:87-89 | every row other than the target is visited at exactly one position of that pass |
| Collaborative.CommonSupportExact | colaborativo.py:95 | the common support is strictly ascending and lists exactly the items both rows rated with a non-zero value |
| Collaborative.CommonBelowExact | colaborativo.py:95 | the same for the items below n, the induction behind the previous row |
| Collaborative.RestrictEntries | colaborativo.py:106-107 | a restricted row has one component per listed index, and component k is the row's entry at the k-th index |
| Collaborative.CompareUsers | colaborativo.py:95-102 | a comparison carries the other user's index; it has no restricted rows exactly when the common support is empty, and is then (i, 0.0, None, None) |
| Collaborative.ComparisonOnCommonSupport | colaborativo.py:104-134 | with a non-empty common support both restricted rows have its length and only non-zero entries, the product of their norms is positive (the 0.0 fallback never fires), and the similarity is their cosine |
| Collaborative.UserSimilarities | colaborativo.py:79-136 | the listing has one entry per user other than the target, in row order: entry k is the comparison with the k-th row other than the target's |
| Collaborative.PredictCollaborative | colaborativo.py:148-193 | the output has one slot per item; a slot is empty for an item the target rated; otherwise it holds the weighted sum over the similarity total when that total is positive, and is empty when it is not |
| Collaborative.Raters | colaborativo.py:167-176 | the neighbours kept for an item are covered by the matrix and all rated that item |
| Collaborative.RatersMultiplicity | colaborativo.py:167-176 | every neighbour that rated the item is kept as often as it occurs in the neighbour list, and no other neighbour is kept |
| Collaborative.OnlyRatersContribute | colaborativo.py:163-176 | the two accumulators are the plain sums of similarity, and of similarity times rating, over the neighbours that rated the item |
| Collaborative.SumsAppend | colaborativo.py:167-176 | both accumulators add up over a concatenation of neighbour lists |
| Collaborative.RepeatedNeighboursCountTwice | colaborativo.py:167-191 | neighbours are not deduplicated: listing every neighbour twice doubles both accumulators and leaves the prediction unchanged |
| Collaborative.NoRaterNoPrediction | colaborativo.py:182-191 | when no neighbour rated the item, both accumulators are zero and the slot stays empty |
| Collaborative.RaterGivesPrediction | colaborativo.py:182-184 | with positive similarities, one neighbour who rated an item the target has not rated is enough for a prediction, and it is the weighted average |
| Collaborative.SimTotalPositive | colaborativo.py:173-182 | with positive similarities the similarity total is non-negative, and positive when some neighbour rated the item |
| Collaborative.WeightedSumBounds | colaborativo.py:173-176 | with non-negative similarities the weighted sum lies between lo and hi times the similarity total, when every contributing rating lies in [lo, hi] |
| Collaborative.PredictionWithinRatingRange | colaborativo.py:182-184 | with non-negative similarities a prediction lies between the lowest and the highest rating the contributing neighbours gave |
| Content.CompareItems | contenido.py:65-80 | a comparison carries the other item's index and the cosine similarity of the two feature vectors, which is 0.0 when either is all zeros |
| Content.Comparisons | contenido.py:55-83 | the comparisons before sorting: one per item other than the target, in item order |
| Content.SortBySimilarity | contenido.py:86 | the sort rearranges the array (same multiset of entries) into descending similarity, with equal similarities in ascending index order, as a stable sort of index-ordered input leaves them |
| Content.InsertNext | contenido.py:86 | one insertion step: entry i moves down to position j, the entries between shift up by one, and the rest stays |
| Content.InsertionStep | contenido.py:86 | an insertion step extends the sorted prefix by one entry and keeps the prefix a rearrangement of the input's |
| Content.RankBySimilarity | contenido.py:45-87 | the ranking has one entry per other item, is a rearrangement of the comparisons, and is sorted by descending similarity with ties in ascending index order |
| Content.RankingIsUnique | contenido.py:86 | two sorted rearrangements of the same comparisons are equal: the ranking is fully determined by the comparisons |
| Content.RankingCoversOtherItems | contenido.py:55-57 | every ranking entry names an item other than the target with its cosine similarity, every other item appears, and no item appears twice |
| Content.ComparisonsDistinct | contenido.py:55-83 | the comparisons name pairwise distinct items |
| LatentFactors.Truncate | svd_system.py:49-61 | U_k is the first k columns of U, S_k is k x k with s[r] on the diagonal and zeros off it, Vt_k is the first k rows of Vt, and the approximation is m x n |
| LatentFactors.ReconstructionEntry | svd_system.py:61 | each approximation entry [i][j] is the sum over r < k of U[i][r] * s[r] * Vt[r][j] |
| LatentFactors.UserLatentScales | svd_system.py:92-93 | a row times the diagonal matrix of d scales component r by d[r]: user_latent[r] is U_k[u][r] * s[r] |
| LatentFactors.DotOneHot | svd_system.py:93 | a dot product with a vector that is zero off position r is the product at r, which is why a diagonal S_k only rescales |
| LatentFactors.DotMatchesLatentSum | svd_system.py:120 | the dot product of the latent vector with the film's latent column is the sum over latent factors of U[u][r] * s[r] * Vt[r][m] |
| LatentFactors.PredictSvd | svd_system.py:73-124 | the output has one slot per item (by default the first rating row's length); a rated item's slot is empty, and an unrated item's holds the latent vector dotted with column m of Vt_k |
| LatentFactors.PredictionMatchesReconstruction | svd_system.py:61-120 | with the truncated factors each numeric prediction equals the approximation entry A_approx[u][m], which is the triple sum over the latent factors; rated items get none |
| Examples.AnaCarlosCommonSupport | main.py:22-23 | Ana's and Carlos's common support is [0, 1, 3] |
| Examples.MariaAnaSimilarity | main.py:22-26 | Maria's similarity to Ana is exactly 49/50 |
| Examples.RestrictedSimilarity | main.py:22-26 | the cosine of [5, 4, 3] and [5, 3, 4] is 49/50 |
| Examples.AnaInceptionPrediction | main.py:47-50 | with Elena and Maria as neighbours, Ana's prediction for Inception is 3.0 whatever their similarities, if Elena's is positive |
| Examples.ShorterRowCompared | colaborativo.py:95-107 | a neighbour row shorter than the target's is compared when it reaches every item the target rated: [5, 0] against [4] has common support [0] and restricted rows [5] and [4] |
| Examples.MatrixRanking | main.py:30-36 | the films most like Matrix are Avatar, Star Wars, Inception (ties in film order), then Titanic, for every sorted ranking |
| Examples.FilmComparisons | main.py:30-36 | the comparisons with Matrix have similarity 1 for Avatar, Star Wars and Inception and 0 for Titanic |
| Examples.ExpectedRanking | main.py:30-36 | the expected ranking is sorted and a rearrangement of those comparisons |
| Examples.NegativeLatentPrediction | svd_system.py:120-121 | predictions are not clamped: U = [[1]], s = [1], Vt = [[-1]] predict -1 for an unrated item |

## Left out

- Printing and string formatting of the trace output, and the user and film name
  lists, which only label that output. The film list's length sets the output length
  of both predictors; it is a parameter here (`itemCount`).
- `np.array` conversion and `np.linalg.svd`, an external numeric library. `U`, `s`
  and `Vt` are inputs with the shapes the decomposition produces. Orthonormality,
  descending singular values, exact reconstruction and optimality of the truncation
  are not stated.
- Floating-point rounding: all values are reals. `math.sqrt` is a parameter
  constrained to behave as a square root, so numeric similarities such as the
  collaborative top-2 of `main.py` are not computed. The top-2 neighbour selection in
  `main.py` is the caller's and is left out. The bound of the cosine to [-1, 1]
  (Cauchy–Schwarz) is not stated.
- Python's negative indices: every index is a `nat` below its bound. An
  out-of-range index that Python would fail on is a precondition. Rows may be
  ragged wherever Python accepts them: another user's row need only reach the items
  the target rated (`Collaborative.CoversRated`), because `and` at
  `colaborativo.py:95` reads the other row only there; a neighbour's row need only
  reach the items the target has not rated, the only ones `colaborativo.py:168`
  reads. The SVD factors come from numpy arrays and are rectangular.
- LatentFactors.Truncate: requires 1 <= k <= len(s), although numpy slicing accepts
  every k. A k above len(s) acts as k = len(s), k = 0 gives an all-zero m x n
  approximation, and a negative k drops factors from the end. The default k = 2 of
  `svd_y_reconstruccion_detalle` is not modelled either: k is always passed.
- The Timsort mechanics of `list.sort`: the sort is an insertion sort on an array.
  It is proved against the same specification, descending similarity with stable
  ties, and a sorted rearrangement is shown to be unique.
- That the inputs are not modified: rows, matrices and feature lists are values, so
  no model operation can change them.
- The numpy operations (`@`, column and row slicing, `np.diag`) are written out as
  functions whose contracts give shapes and entries; the properties of the
  products are stated by the lemmas above.
