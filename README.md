# Kabsch alignment, RMSD and XYZ parsing in Dafny

This project models `kabsch_proj/kabsch_proj/kabsch_algorithm.py` and proves properties of the model. That file aligns two paired point sets with the Kabsch algorithm. It models four pieces:

- **`parse_xyz`**, from the point where the file's text has been read:
  - the text is split on `'\n'`;
  - each line is split on a separator of six spaces, with Python `str.split` semantics;
  - every line that gives exactly four pieces contributes the row `float(piece 1), float(piece 2), float(piece 3)`.
- **`rmsd(V, W)`**:
  - the `'Dimensions are not equal!'` assertion;
  - the accumulation of squared differences over the pairs `zip(V, W)` yields;
  - the mean over `len(V)` and its square root.
- **`centroid(X)`**: `sum(X) / len(X)`, with a `ValueError` for an empty set.
- **`kabsch(P, Q, normal, rotation)`**:
  - the covariance `C = Pᵗ·Q`;
  - the singular value decomposition `V, S, W` of `C`;
  - the reflection guard that negates `S[-1]` and the column `V[:,-1]` in place when `det(V)·det(W) < 0`;
  - the rotation `U = V·W` and the rotated set `P·U`;
  - the flag-driven output tuple.

Points are rows of a `Matrix` of `real`s that keeps its shape, so an array with no rows still has a trailing dimension. numpy raises exceptions, and the model turns each one into a failure value:

| numpy | model |
|---|---|
| the assertion failure of `rmsd` | `DimensionMismatch` |
| `V[0]` on an empty array | `NoPoints` |
| `np.dot` with mismatched inner dimensions | `NotAligned` |
| `np.linalg.svd` not converging | `SvdFailed` |
| `S[-1]` or `V[:,-1]` on an empty axis | `IndexOutOfRange` |
| `float` on a non-number | `BadNumber` |

Some operations are supplied by the caller as function parameters:

| source operation | parameter | what the proofs assume |
|---|---|---|
| `float` | `toFloat` | nothing |
| `np.sqrt` | `sqrt` | `IsRoot`: `sqrt(0) == 0`, and `sqrt` is non-negative and monotone on non-negative reals |
| `np.linalg.svd` | `svd` | `SvdContract`: on success, numpy's factor shapes |
| `np.linalg.det` | `det` | nothing |

The imperative parts are Dafny methods. Three of them are proved equal to a specification function. `ReflectionGuard` works on arrays in place: its postconditions give the new S and V in terms of the old ones, and `CorrectReflection` ties it to the value-level `Reflect`.

| source | Dafny method | specification function |
|---|---|---|
| the loops that grow `mol_data` | `Xyz.ParseXyz`, with its inner loop in `Xyz.ReadRow` | `Xyz.ParseLines` |
| the accumulator loop of `rmsd` | `Deviation.Rmsd` | `Deviation.RmsdOf` |
| the in-place reflection guard on arrays | `KabschAlgorithm.ReflectionGuard`, run by `KabschAlgorithm.CorrectReflection` | `KabschAlgorithm.Reflect` |
| `kabsch` as a whole | `KabschAlgorithm.Kabsch` | `KabschAlgorithm.Align` |

The lemmas then state what the source promises about those functions.

Files:

| file | contents |
|---|---|
| `wrappers.dfy` | `Option` and `Result` |
| `matrices.dfy` | matrices, transpose, product |
| `rmsd.dfy` | `rmsd` |
| `centroid.dfy` | `centroid` |
| `parse_xyz.dfy` | Python split, and the parser |
| `xyz_lines.dfy` | facts about split XYZ lines |
| `kabsch.dfy` | `kabsch` |

## Model

| member | source | states |
|---|---|---|
| Xyz.Find | kabsch_proj/kabsch_proj/kabsch_algorithm.py:34 | the index found is an occurrence of the separator with none before it; no index means the separator does not occur |
| Xyz.SplitIsSplit | kabsch_proj/kabsch_proj/kabsch_algorithm.py:33-34 | `str.split`: the pieces join back to the text with the separator, each piece but the last ends at the leftmost occurrence of the separator, and the last holds none |
| Xyz.SplitUnique | kabsch_proj/kabsch_proj/kabsch_algorithm.py:33-34 | any decomposition with those properties is the split, so the split is characterised completely |
| Xyz.Tokens | kabsch_proj/kabsch_proj/kabsch_algorithm.py:35-38 | every row of tokens has exactly three entries, and there are no more rows than lines |
| Xyz.Kept | kabsch_proj/kabsch_proj/kabsch_algorithm.py:33-35 | the kept line indices are in range and strictly increasing; each names a line that splits into four pieces; every such line is kept |
| Xyz.TokensOfKept | kabsch_proj/kabsch_proj/kabsch_algorithm.py:33-38 | there is one row per line that splits into four pieces, in line order, and row k is pieces 1..3 of the k-th such line, with the label dropped |
| Xyz.ConvertRowConverts | kabsch_proj/kabsch_proj/kabsch_algorithm.py:37-38 | a row converts exactly when every token converts; its values are then the converted tokens in order; a failure names a token of the row that does not convert (which one: `ConvertRowFirstFailure`) |
| Xyz.ConvertRowFirstFailure | kabsch_proj/kabsch_proj/kabsch_algorithm.py:37-38 | a failed row names its first token that does not convert: the error is that token, and every token before it converts, as the `range(1, 4)` loop raises at the first bad `float` |
| Xyz.ParseLinesSucceeds | kabsch_proj/kabsch_proj/kabsch_algorithm.py:32-39 | parsing succeeds exactly when every coordinate token of every kept line converts |
| Xyz.ParseLinesValues | kabsch_proj/kabsch_proj/kabsch_algorithm.py:36-38 | after a successful parse, row k holds three values, and value c is the conversion of token c of the k-th kept line |
| Xyz.ParseLinesFailure | kabsch_proj/kabsch_proj/kabsch_algorithm.py:38 | a failed parse names a coordinate token of a kept line that does not convert (which one: `ParseLinesFirstFailure`) |
| Xyz.ParseLinesFirstFailure | kabsch_proj/kabsch_proj/kabsch_algorithm.py:33-38 | a failed parse names the first coordinate token, in line order and then field order, that does not convert; every coordinate token before it converts |
| Xyz.ParseLinesConverts | kabsch_proj/kabsch_proj/kabsch_algorithm.py:32-39 | parsing succeeds exactly when every coordinate token of every kept line converts; the result has one row of three converted values per kept line; a failure names the first unconvertible coordinate token in line and field order |
| Xyz.ReadRow | kabsch_proj/kabsch_proj/kabsch_algorithm.py:36-38 | the inner loop over pieces 1..3 yields the conversion of the row's tokens, or the first failure |
| Xyz.ParseXyz | kabsch_proj/kabsch_proj/kabsch_algorithm.py:32-39 | the nested loops return the parse of the split lines of the text, including the error raised at the first bad token |
| XyzLines.SplitJoinedLines | kabsch_proj/kabsch_proj/kabsch_algorithm.py:33 | lines without `'\n'` joined by `'\n'` split back into exactly those lines |
| XyzLines.RecordLine | kabsch_proj/kabsch_proj/kabsch_algorithm.py:34-37 | a record `label␣␣␣␣␣␣x␣␣␣␣␣␣y␣␣␣␣␣␣z` whose fields hold no space splits into exactly its four fields, so it is kept and its row is `[x, y, z]` |
| Deviation.Rmsd | kabsch_proj/kabsch_proj/kabsch_algorithm.py:94-103 | the loop yields the dimension failure, the no-points failure, or sqrt of the sum of squared differences over the zipped pairs divided by len(V) |
| Deviation.RmsdDimensionCheck | kabsch_proj/kabsch_proj/kabsch_algorithm.py:97-99 | fails with the dimension error exactly when the trailing dimensions differ; succeeds exactly when they agree and V has a point |
| Deviation.RmsdNonNegative | kabsch_proj/kabsch_proj/kabsch_algorithm.py:100-103 | every successful rmsd is non-negative, for any monotone root with sqrt(0) == 0 |
| Deviation.RmsdSelfIsZero | kabsch_proj/kabsch_proj/kabsch_algorithm.py:100-103 | rmsd(X, X) == 0 for every non-empty X |
| Deviation.RmsdOfUnitVectors | kabsch_proj/tests/test_kabsch_proj.py:38-41 | ten copies of (1,0,0) against ten copies of (0,1,0) give a mean square of exactly 2, so rmsd is sqrt(2) |
| Deviation.RmsdZipTruncates | kabsch_proj/kabsch_proj/kabsch_algorithm.py:99-103 | only zipped pairs are summed but the divisor is len(V): two points against one give mean square 1, not 2 |
| Centroids.Centroid | kabsch_proj/kabsch_proj/kabsch_algorithm.py:85-91 | fails with 'Empty vector!' exactly when X has no points; otherwise the centroid has one coordinate per dimension |
| Centroids.CentroidOfConstant | kabsch_proj/kabsch_proj/kabsch_algorithm.py:87-88 | the centroid of copies of one point is that point |
| Centroids.CentroidExamples | kabsch_proj/tests/test_kabsch_proj.py:28-31 | ten ones give 1, ten zeros give 0, an empty set raises |
| Centroids.CentroidIsBalancePoint | kabsch_proj/kabsch_proj/kabsch_algorithm.py:87-88 | for a non-empty X, m is the centroid exactly when the deviations of the points from m sum to zero in every coordinate, which is the property that makes it the mean |
| Centroids.CentroidOfShift | kabsch_proj/kabsch_proj/kabsch_algorithm.py:88 | translating every point by t translates the centroid by t |
| Centroids.CenteringZeroesCentroid | kabsch_proj/kabsch_proj/kabsch_algorithm.py:88 | subtracting the centroid from every point gives a set whose centroid is the origin |
| Matrices.Transpose | kabsch_proj/kabsch_proj/kabsch_algorithm.py:67 | `np.transpose` swaps the shape and the indices of every entry |
| Matrices.MatMul | kabsch_proj/kabsch_proj/kabsch_algorithm.py:75-76 | `np.dot` of an m×k and a k×n array is m×n with entry (i, j) the inner product of row i and column j |
| KabschAlgorithm.Covariance | kabsch_proj/kabsch_proj/kabsch_algorithm.py:67 | the covariance of two N×D sets is D×D |
| KabschAlgorithm.CovarianceEntries | kabsch_proj/kabsch_proj/kabsch_algorithm.py:67 | each covariance entry C[a][b] is Σᵢ P[i][a]·Q[i][b] |
| KabschAlgorithm.Items | kabsch_proj/kabsch_proj/kabsch_algorithm.py:77-82 | the tuple has 1 + [normal] + [rotation] elements: the optimal deviation first, then the raw deviation if present, then U last if present |
| KabschAlgorithm.Reflect | kabsch_proj/kabsch_proj/kabsch_algorithm.py:72-73 | the corrected decomposition has the last singular value and the last column of V negated, and every other entry unchanged |
| KabschAlgorithm.ReflectKeepsFactorization | kabsch_proj/kabsch_proj/kabsch_algorithm.py:69-73 | the guard keeps V·diag(S)·W unchanged, so the corrected factors still decompose C |
| KabschAlgorithm.CorrectedIsScaled | kabsch_proj/kabsch_proj/kabsch_algorithm.py:70-73 | the V left by the guard is V·diag(1, …, 1, σ), with σ = -1 exactly when det(V)·det(W) < 0 |
| KabschAlgorithm.ReflectionGuard | kabsch_proj/kabsch_proj/kabsch_algorithm.py:70-73 | in place: when det(V)·det(W) < 0, exactly S[-1] and column V[:,-1] are negated; otherwise, including a product of exactly 0, S and V are untouched; an empty axis under a flip is the IndexError |
| KabschAlgorithm.CorrectReflection | kabsch_proj/kabsch_proj/kabsch_algorithm.py:69-73 | running the guard on arrays loaded from the decomposition yields the reflected decomposition when it flips, the decomposition itself otherwise |
| KabschAlgorithm.Kabsch | kabsch_proj/kabsch_proj/kabsch_algorithm.py:48-82 | the method's steps yield what `Align` specifies, including each error numpy raises on the way |
| KabschAlgorithm.AlignSucceeds | kabsch_proj/kabsch_proj/kabsch_algorithm.py:67-81 | with numpy's SVD shapes, kabsch succeeds exactly when P and Q have the same shape with at least one point, the SVD succeeds, and there is no flip with D == 0 |
| KabschAlgorithm.AlignOutput | kabsch_proj/kabsch_proj/kabsch_algorithm.py:67-82 | on success: C is D×D; rmsd(P, Q) is present iff `normal`, as the second element; U is present iff `rotation`; the length is 1 + [normal] + [rotation]; when U is reported it is D×D, P·U has P's shape and the first element is rmsd(P·U, Q) |
| KabschAlgorithm.AlignRotation | kabsch_proj/kabsch_proj/kabsch_algorithm.py:69-77 | on success, whatever the flags: the first element is rmsd(P·U, Q) with U = V·diag(1, …, 1, σ)·W from the decomposition of C, where σ = -1 exactly when det(V)·det(W) < 0; U is D×D; the U reported under `rotation` is that same U |
| KabschAlgorithm.FlagsOnlySelect | kabsch_proj/kabsch_proj/kabsch_algorithm.py:77-81 | the flags only select what is reported: success and the values are those of the call with both flags set |
| KabschAlgorithm.AlignNonNegative | kabsch_proj/kabsch_proj/kabsch_algorithm.py:77-79 | both reported deviations are non-negative |

## Left out

- Opening and reading the file, and the `FileNotFoundError` print and re-raise (lines 26-31): this is I/O. `ParseXyz` takes the text already read.
- `float`: a foreign parsing routine. It is the parameter `toFloat`.
- `np.array(mol_data)` at line 39: the parser returns the rows as a sequence. The shape numpy gives an empty result, `(0,)`, is not modelled.
- `np.linalg.svd`, `np.linalg.det` and `np.sqrt` are parameters. So the model does not state:
  - that U is orthogonal or has determinant +1;
  - that the rotation is optimal;
  - that `kabsch(P, P)[0]` is 0 (the test at lines 55-56 of the tests);
  - that the optimal deviation is at most the raw one.

  All of these depend on the decomposition being correct.
- Floating-point rounding: coordinates are `real`s. For the same reason, `(v[i]-w[i])**2.0` is written as the product `d * d`.
- The regression value `0.029961…` of the tests: it depends on mol1.xyz and mol2.xyz and on the decomposition.
- `parse_arguments`, `main`, the entry point and `__init__.py`: argparse and packaging glue.
- One-dimensional input such as `np.ones(10)` in the `centroid` tests is modelled as ten one-coordinate points. Three-dimensional arrays are not modelled.
- Xyz.ConvertRowConverts: its failure clause says only that some token of the row does not convert. That it is the first such token is stated by `Xyz.ConvertRowFirstFailure`.
- Xyz.ParseLinesFailure: its clause says only that some coordinate token does not convert. That it is the first such token is stated by `Xyz.ParseLinesFirstFailure`, and `Xyz.ParseLinesConverts` carries both.
