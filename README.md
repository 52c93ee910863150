# scikit-guess core in Dafny

scikit-guess estimates the parameters of nonlinear models without iteration.
It follows Jacquelin's "Régressions et équations intégrales" method. The
model is integrated numerically (the cumulative trapezoid rule). That turns
the fit into a linear least-squares problem whose coefficients give the
parameters directly. This project models the core of that library:

- `Gauss` (`src/skg/gauss.py`) covers `gauss_fit` and `model`.
  - The fit builds the two-column trapezoid design matrix.
  - It solves the 2-parameter least-squares problem.
  - It recovers `mu` and `sigma`.
  - It fits the amplitude against the unit bell curve.
- `ExpFit` (`src/skg/exp.py`) covers `exp_fit` and `model` for `y = a + b·exp(c·x)`.
  - One 2×2 system gives `c`.
  - A second 2×2 system gives `a` and `b`.
- `LegacyExp` (`skg/exp.py`) is the older `exp_fit`. It flattens and sorts its own inputs and solves the same systems through `inv`.
- `Util` (`src/skg/_util.py`) covers `preprocess`, `replace_axis`, `axis_slice` and `transpose_last`.
- `Table` (`doc/appendices/reei/figures.py`) covers `gen_table`, which renders columns of data as a reStructuredText grid table.
- Supporting modules:
  - `Vectors`: dot products, sums of squares, linear combinations, Cauchy–Schwarz.
  - `Trapezoid`: the cumulative trapezoid integral `s` and the array the fits fill with it.
  - `Linear2`: 2×2 determinant, `solve`, `inv`, and `lstsq` characterised by the normal equations.
  - `Numerics`: the error kinds and the laws assumed of `exp` and `sqrt`.
  - `Entry`: `preprocess` composed with the fits.
  - `Wrappers`: `Option` and `Result`.

Real numbers stand in for floating point. `exp` and `sqrt` are parameters of
the fits, constrained only by the laws the proofs need
(`exp(0) = 1` and `exp(t) > 0`; `sqrt` returns the non-negative root). A NumPy
exception becomes a `Failure` value:

| `Failure` value | NumPy exception |
|---|---|
| `IndexError` | assigning element 0 of an empty array: `a1[0, :] = 0` (src/skg/gauss.py:110), `s[0] = 0` (src/skg/exp.py:74, skg/exp.py:76) |
| `ValueError` | size mismatch |
| `AxisError` | axis out of range |
| `LinAlgError` | singular matrix |

A fit that would silently produce NaN is modelled as `NotANumber`.

## Model

| member | source | states |
|---|---|---|
| Trapezoid.Panels | src/skg/exp.py:75 | one trapezoid area per gap between consecutive samples, N-1 of them |
| Trapezoid.Cumsum | src/skg/exp.py:75 | entry k is the sum of the first k+1 panels |
| Trapezoid.CumTrapz | src/skg/exp.py:73-75 | the cumulative integral has one entry per sample and starts at 0 (`s[0] = 0`) |
| Trapezoid.CumTrapzStep | src/skg/gauss.py:111-112 | each entry of the cumulative integral is the previous one plus the panel between them |
| Trapezoid.CumTrapzAffine | src/skg/exp.py:73-75 | the trapezoid rule is exact on straight lines: it returns p(x²-x0²)/2 + q(x-x0) for y = px+q |
| Trapezoid.FillCumTrapz | skg/exp.py:75-77 | the array filled in place holds exactly the cumulative trapezoid integral of y over x |
| Gauss.Products | src/skg/gauss.py:106 | `xy` is the element-wise product of x and y |
| Gauss.DesignMatrix | src/skg/gauss.py:105-112 | `a1` is a fresh N×2 array: column 0 is the cumulative integral of y, column 1 that of x·y, row 0 is zero |
| Gauss.Coefficients | src/skg/gauss.py:114-116 | (A, B) satisfies the least-squares normal equations of `a1` against `y - y[0]` |
| Gauss.MeanDeviation | src/skg/gauss.py:118 | succeeds exactly when B < 0 (otherwise `sqrt` of a negative, NaN); on success mu·B = -A, sigma > 0 and sigma² = -1/B |
| Gauss.MeanDeviationRoundTrip | src/skg/gauss.py:118 | A = mu/sigma², B = -1/sigma² give back exactly (mu, sigma) for every sigma > 0 |
| Gauss.Profiles | src/skg/gauss.py:121 | `a2` is the unit bell curve at each x, every entry strictly positive |
| Gauss.Model | src/skg/gauss.py:150 | the bell curve has the sign of its amplitude everywhere: positive exactly when a > 0, negative exactly when a < 0 |
| Gauss.ModelAtMean | src/skg/gauss.py:150 | the Gaussian model equals its amplitude at x = mu |
| Gauss.Amplitude | src/skg/gauss.py:122 | the amplitude solves the one-column normal equation (g·g)·amp = g·y |
| Gauss.AmplitudeMinimises | src/skg/gauss.py:122 | no other amplitude gives a smaller sum of squared deviations from y |
| Gauss.AmplitudeNormalEquations | src/skg/gauss.py:122 | the one-column fit is the two-column least-squares fit with a zero second column |
| Gauss.AmplitudeExact | src/skg/gauss.py:122 | when y is exactly c times the profile the fitted amplitude is c |
| Gauss.FitSpec | src/skg/gauss.py:105-126 | a successful fit has N > 0 and its (mu, sigma) are those recovered from the least-squares coefficients |
| Gauss.Fit | src/skg/gauss.py:105-126 | the imperative fit (design matrix filled in an array) returns exactly the fit specification |
| Gauss.FitFailure | src/skg/gauss.py:105-118 | empty input raises IndexError; otherwise the fit fails (NaN) exactly when B ≥ 0 |
| Gauss.FitRecovers | src/skg/gauss.py:116-118 | a successful fit's (mu, sigma) come from a solution of the normal equations of the trapezoid system |
| Gauss.FitAmplitude | src/skg/gauss.py:121-124 | the returned amplitude is the least-squares amplitude for the returned mu and sigma |
| ExpFit.FirstSystem | src/skg/exp.py:77-85 | the first matrix is symmetric with non-negative diagonal `sx2`, `ss2` |
| ExpFit.SecondSystem | src/skg/exp.py:94-97 | the second matrix is symmetric, its first entry is the sample count and `se2` is non-negative |
| ExpFit.FitSpec | src/skg/exp.py:73-101 | IndexError exactly for empty input, otherwise only LinAlgError; on success the first system is nonsingular and (a, b) solves the second system for the returned c |
| ExpFit.Exps | src/skg/exp.py:91 | `ex` is exp(c·x) element-wise |
| ExpFit.FirstSystemGram | src/skg/exp.py:77-87 | the first 2×2 system is the Gram matrix and moments of (x-x0, s) against y-y0; its determinant is ≥ 0 |
| ExpFit.SecondSystemGram | src/skg/exp.py:94-99 | the second system is the Gram matrix and moments of (1, ex) against y; its determinant is ≥ 0 |
| ExpFit.Fit | src/skg/exp.py:73-101 | fails exactly when the specification fails, with the same error; on success the fresh array holds [a, b, c] |
| ExpFit.FitFailure | src/skg/exp.py:73-99 | empty input raises IndexError; a singular first system raises LinAlgError; otherwise the fit fails exactly when the second system is singular |
| ExpFit.FitExponent | src/skg/exp.py:89 | the returned c is the second component of the unique solution of the first system |
| ExpFit.FitBiasMultiplier | src/skg/exp.py:91-99 | (a, b) solves the normal equations of (1, exp(c·x)) against y and minimises the squared residual |
| ExpFit.FitSecondStageExact | src/skg/exp.py:91-99 | if y is exactly a0 + b0·exp(c·x) for the first stage's c, the fit returns (a0, b0, c) |
| ExpFit.Model | src/skg/exp.py:129 | the curve lies above its asymptote a exactly when b > 0 and below it exactly when b < 0 |
| ExpFit.ModelFlat | src/skg/exp.py:129 | with c = 0 the model is the constant a + b |
| LegacyExp.Ordered | skg/exp.py:69-73 | with `sorted` the data are untouched; otherwise x ascends and the (x, y) pairs are a permutation of the input pairs |
| LegacyExp.FitSpec | skg/exp.py:65-101 | a size mismatch raises ValueError before anything else; the only errors are ValueError, IndexError and LinAlgError; success needs equal, non-zero sizes |
| LegacyExp.Fit | skg/exp.py:65-101 | fails exactly when the specification fails, with the same error; on success the fresh array holds [a, b, c] |
| LegacyExp.SizeMismatch | skg/exp.py:65-68 | the legacy fit raises ValueError exactly when the flattened sizes differ |
| LegacyExp.AgreesWithSolve | skg/exp.py:90-99 | solving through `inv` gives the same result as `solve` on the ordered data |
| Linear2.Solve | src/skg/exp.py:89 | raises (None) exactly when the determinant is 0; otherwise the result satisfies the system |
| Linear2.SolveUnique | src/skg/exp.py:89 | any solution of a nonsingular system is the one `solve` returns |
| Linear2.Inverse | skg/exp.py:90 | raises exactly when singular; otherwise a two-sided inverse |
| Linear2.InverseSolves | skg/exp.py:90 | multiplying by the inverse gives the same vector as `solve` |
| Linear2.GramDetNonneg | src/skg/exp.py:81-87 | a Gram matrix of two columns has non-negative determinant |
| Linear2.Lstsq | src/skg/gauss.py:116 | for every input, including rank-deficient ones, the result satisfies the normal equations |
| Linear2.NormalEquationsOrthogonal | src/skg/gauss.py:116 | x solves the normal equations iff the residual is orthogonal to both columns |
| Linear2.NormalEquationsMinimise | src/skg/gauss.py:116 | a solution of the normal equations has the least squared residual of all coefficient pairs |
| Linear2.ResidualMoments | src/skg/gauss.py:116 | the residual's moments are the right-hand side minus the Gram matrix applied to x |
| Linear2.MomentsInRange | src/skg/gauss.py:116 | when the Gram matrix is singular, the moments still lie in its range (the rank-deficient case is solvable) |
| Linear2.LstsqZeroColumns | src/skg/gauss.py:116 | with both columns zero, (0, 0) solves the normal equations |
| Linear2.LstsqRankOne | src/skg/gauss.py:116 | with a rank-one Gram matrix, moments / trace solves the normal equations |
| Linear2.LstsqExact | src/skg/gauss.py:116 | data that is exactly p·u + q·v with independent columns is fitted back to (p, q) |
| Linear2.GramSystemExact | src/skg/exp.py:99 | the Gram matrix applied to (p, q) equals the moments of p·u + q·v |
| Vectors.Shifted | src/skg/gauss.py:114 | `b1 = y - y[0]`: every entry shifted by the first, so b1[0] = 0 |
| Vectors.CauchySchwarz | src/skg/exp.py:81-85 | (u·v)² ≤ (u·u)(v·v) |
| Vectors.ResidualSumSq | src/skg/gauss.py:116 | expands the squared residual of p·u + q·v into b·b, moments and the Gram quadratic form |
| Vectors.GramPsd | src/skg/gauss.py:116 | the Gram quadratic form is non-negative in every direction |
| Util.SortByX | src/skg/_util.py:52-56 | x ascends after the argsort and the (x, y) pairs are a permutation of the input pairs |
| Util.NdArray.Ravel | src/skg/_util.py:47-48 | a flattened array is one-dimensional with the same data |
| Util.Preprocess | src/skg/_util.py:15-57 | ValueError exactly on a size mismatch (axis None) or shape mismatch; AxisError exactly for a bad axis; on success the shapes, the data order and the axis are as documented |
| Util.NormalizeAxis | src/skg/_util.py:79 | a negative axis counts from the end; an axis outside [-ndim, ndim) raises AxisError |
| Util.ReplaceAxis | src/skg/_util.py:79-81 | the shape with only the entry at the normalised axis replaced by `size` |
| Util.ReplaceAxisRestore | src/skg/_util.py:79-81 | replacing the axis back with its old size restores the original shape |
| Util.AxisSlice | src/skg/_util.py:111-113 | `axis` full slices, then the index, then Ellipsis; AxisError for a bad axis |
| Util.AxisSliceSelects | src/skg/_util.py:84-113 | indexing with the slice removes exactly the selected axis from the shape |
| Util.SwapLast | src/skg/_util.py:134 | exchanges the last two entries and keeps the rest |
| Util.TransposeLast | src/skg/_util.py:116-135 | with two or more axes the last two entries of shape and strides are exchanged over the same buffer offset; with fewer the view passes through unchanged |
| Util.TransposeLastTwice | src/skg/_util.py:133-135 | transposing the last two axes twice gives back the original view |
| Util.TransposeLastElement | src/skg/_util.py:116-135 | element idx of the transposed view is the element of the original with the last two indices swapped |
| Table.LeftJustify | doc/appendices/reei/figures.py:94-95 | `'{:<{}}'`: the text followed by spaces up to the width, never truncated |
| Table.Pad | doc/appendices/reei/figures.py:94-95 | each cell of a row is left-justified to its column's width, zipped to the shorter length |
| Table.Format | doc/appendices/reei/figures.py:97-105 | None and '' format as ''; a successful `str.format` gives its text; a ValueError or TypeError falls back to `str(item)`; any other exception escapes, and only then |
| Table.ColumnSpecs | doc/appendices/reei/figures.py:108-113 | None gives '{}' for every column, a string repeats it, a list maps its None entries to '{}' |
| Table.Height | doc/appendices/reei/figures.py:114 | the table height is the length of the longest column |
| Table.PadColumn | doc/appendices/reei/figures.py:117 | short columns are extended with '' to the table height |
| Table.FormatColumn | doc/appendices/reei/figures.py:116-118 | formats every cell of a column, failing exactly when one cell's formatting escapes |
| Table.Content | doc/appendices/reei/figures.py:116-118 | one formatted, padded column per (column, spec) pair; fails exactly when some formatting escapes |
| Table.Widths | doc/appendices/reei/figures.py:121-126 | each width is the longest cell (and heading) of its column and is attained; unmeasurable exactly when a measured column is empty |
| Table.Headings | doc/appendices/reei/figures.py:121-122 | a non-empty heading is converted with `str` cell by cell; an empty one counts as no heading |
| Table.Rows | doc/appendices/reei/figures.py:129 | the rows are the transpose of the content |
| Table.Arrange | doc/appendices/reei/figures.py:107-129 | a successful layout fits every cell and heading into its column and every width is attained |
| Table.ArrangeCells | doc/appendices/reei/figures.py:116-129 | a successful layout shows the given cells: its widths are measured on the formatted, padded columns and its rows are those columns transposed |
| Table.ArrangeNoColumns | doc/appendices/reei/figures.py:114 | `max` of no columns raises exactly when `cols` is empty |
| Table.ArrangeFormatFailed | doc/appendices/reei/figures.py:97-118 | an exception escapes exactly when some cell's formatting raises one `format` does not catch |
| Table.ArrangeNoRows | doc/appendices/reei/figures.py:121-126 | `max` of an empty column raises exactly when all columns are empty and some width is measured |
| Table.ArrangeShape | doc/appendices/reei/figures.py:114-129 | the layout has one width per measured column and one row per line of the tallest column |
| Table.Tr | doc/appendices/reei/figures.py:90-92 | a record opens with `sep fill`, joins its items with `fill sep fill`, and closes with `fill sep` and a newline |
| Table.Filler | doc/appendices/reei/figures.py:87-88 | a border record opens and closes with '+' and ends with a newline |
| Table.Render | doc/appendices/reei/figures.py:131-136 | the text starts with a '+' border and always ends with a newline |
| Table.GenTable | doc/appendices/reei/figures.py:61-136 | raises exactly when the layout does, with the same error; otherwise the text starts with '+' and ends with a newline |
| Table.RowRecords | doc/appendices/reei/figures.py:134 | each data row is rendered as a padded `tr` line |
| Table.RenderRecords | doc/appendices/reei/figures.py:131-136 | the output is the concatenation of the record lines |
| Table.RecordCount | doc/appendices/reei/figures.py:131-136 | 2·rows+1 lines (2 for no rows), plus 2 for a heading |
| Table.RecordFrame | doc/appendices/reei/figures.py:131-135 | the first and last lines are '-' fillers; a heading line is followed by an '=' filler |
| Table.RecordRow | doc/appendices/reei/figures.py:134 | data row r sits at its place in the record sequence |
| Table.RecordSeparator | doc/appendices/reei/figures.py:134 | consecutive data rows are separated by '-' fillers |
| Table.FillerLength | doc/appendices/reei/figures.py:87-88 | a filler line is exactly as long as the widths dictate |
| Table.FillerChars | doc/appendices/reei/figures.py:87-88 | a filler line consists only of '+', the fill character and the newline |
| Table.PadLength | doc/appendices/reei/figures.py:90-95 | a padded row of fitting cells is exactly as long as a filler line |
| Table.JoinLength | doc/appendices/reei/figures.py:91 | the length of `sep.join(items)` |
| Table.RecordEdges | doc/appendices/reei/figures.py:90-92 | every line starts and ends (before its newline) with '+' or '|' and ends with a newline |
| Table.RecordsAligned | doc/appendices/reei/figures.py:87-136 | every line of a fitting layout has the same length, so the grid is aligned |
| Table.GenTableShape | doc/appendices/reei/figures.py:85 | the table is its records, a whole number of equal lines, starting with '+' and ending with a newline |
| Entry.PreprocessAsWritten | src/skg/gauss.py:103 | the call as written always raises ValueError (three values unpacked into two) |
| Entry.PreprocessDiscrepancy | src/skg/exp.py:71 | for x = y = [0, 1, 2] the call as written raises, the intended call returns the data |
| Entry.PreprocessPair | src/skg/gauss.py:103 | the intended call: ValueError exactly on a size mismatch, otherwise flattened and ordered data |
| Entry.GaussFit | src/skg/gauss.py:66-126 | `gauss_fit` with the intended preprocessing raises ValueError exactly when the sizes differ; success needs equal, non-zero sizes |
| Entry.GaussFitPreprocessed | src/skg/gauss.py:103-126 | `gauss_fit` with the intended preprocessing is the Gaussian fit of the ordered data |
| Entry.ExpFitEntry | src/skg/exp.py:41-101 | `exp_fit` with the intended preprocessing raises ValueError exactly when the sizes differ; success needs equal, non-zero sizes |
| Entry.ExpFitAgreesWithLegacy | src/skg/exp.py:71-101 | `exp_fit` with the intended preprocessing is the legacy `exp_fit` |

## Left out

- Floating point: all arithmetic is on exact reals, so rounding, overflow, NaN propagation and `asfarray` dtype conversion are not modelled.
- `exp` and `sqrt` are parameters constrained by `Numerics.ExpLaws` / `Numerics.SqrtLaws`, not implementations.
- `numpy.linalg.solve` and `inv` are specified by what they return rather than by LAPACK's algorithms.
- Linear2.Lstsq: characterised by the normal equations only; SciPy's minimum-norm choice among rank-deficient solutions (src/skg/gauss.py:116) is not stated.
- Gauss.Coefficients: inherits the same gap from `lstsq`: the coefficients solve the normal equations, and their minimum norm in the rank-deficient case is not stated.
- Gauss.MeanDeviation: when B ≥ 0 the source silently returns NaN for sigma (and an infinite or NaN mu when B = 0). The model returns `Err(NotANumber)` instead of a NaN-valued result.
- Util.Preprocess: the `argsort` along an axis of a multi-dimensional array with `sorted=False` is excluded by its precondition. Only one-dimensional sorting is modelled.
- Util.SortByX: the order of samples with equal x is not pinned down. NumPy's default `argsort` is not stable, and the model only promises ascending x and a permutation of the pairs.
- Util.TransposeLast: models the strides and shape of the view, not memory sharing. Aliasing between the view and its base array is not modelled.
- The `overwrite_a`/`overwrite_b` flags passed to `lstsq` (src/skg/gauss.py:116) only let SciPy reuse its input buffers. The model does not capture that buffer reuse.
- Table.Format: `str.format` and `str()` are parameters (`apply`, `show`). What text they produce for a given spec and value is not modelled; the contract states how `format` uses their outcome.
- Table.GenTable: the element types of `cols` are reduced to `Cell` (None, text, number, tuple). Arbitrary Python objects are not modelled.
- `skg/pow.py` and the package's `__init__` files: outside the modelled core.
- The plotting, file writing and driver loop of `doc/appendices/reei/figures.py`. Its own regression at lines 169-180 builds the same S/T system and recovers mu and sigma the same way, so Gauss.Coefficients and Gauss.MeanDeviation cover it.
- The test files under `tests/` and `skg/tests/`: these are examples of use, not behaviour.

## Findings

| source | as written | input that shows it | evidently intended | confidence | as-written member | corrected member |
|---|---|---|---|---|---|---|
| src/skg/gauss.py:103 (also src/skg/exp.py:71) | `x, y = preprocess(x, y, sorted)` passes `sorted` as `axis` and unpacks the three values `preprocess` returns into two names, so every call raises ValueError | x = y = [0, 1, 2] | `x, y, _ = preprocess(x, y, sorted=sorted)`, flattening and ordering the data | not executed | Entry.PreprocessDiscrepancy | Entry.GaussFitPreprocessed |
