# Vector evaluation of matrix expressions, and random bits to [1, 2)

A Dafny model of two pieces of the light-matrix library.

**Vector evaluation** (`light_mat/matrix/matrix_vector_eval.h`) copies a
matrix expression into a dense, column-major destination.

- Cost model and evaluator map. From what an expression type is (dense or not,
  continuous layout or not, a `const_matrix` or not, its compile-time row
  count), the code picks:
  - one of six evaluator classes for each organisation (linear or per column);
  - a cost for each organisation;
  - the default organisation, linear whenever it is no more expensive.
- Evaluators.
  - A linear evaluator serves element k of the source in flattened
    (column-major) order.
  - A per-column evaluator serves row i of its current column and moves to the
    next column on `next_column`.
  - The cached variants first materialise the source into a private dense
    matrix.
- Loops.
  - `linear_eval_impl` writes `dst[i] = get_value(i)` for every i below the
    element count.
  - `percol_eval_impl` writes each column at `pd`, advancing `pd` by the
    destination's leading dimension and the evaluator by `next_column`.
  - `evaluate` builds the evaluator for a policy and runs the matching loop.

**Random bits to [1, 2)** (`light_mat/random/internal/uniform_real_internal.h`)
turns random bits into an IEEE 754 binary32 or binary64 pattern (section 3.4
of IEEE 754-2008). The pattern has sign 0 and the exponent of 1.0, and the low
23 or 52 input bits become its mantissa. Its value is therefore
1 + m / 2^23 (or 1 + m / 2^52), in [1, 2). The SSE and AVX forms compute the
same thing in every lane as `or(1.0, andnot(-2.0, u))`.

Files:

- `dense_layout.dfy` (module `DenseLayout`):
  - column-major offsets;
  - the matrix expressions the core reads (`Expr`: dense storage, a constant,
    or computed elements);
  - the destination `Shape`;
  - flattening, and its lemmas.
- `vector_eval_cost.dfy` (module `VectorEvalCost`): the cost constants, cost
  model, evaluator map and default policy, and its lemmas.
- `vector_evaluators.dfy` (module `VectorEvaluators`):
  - the six evaluator classes;
  - `LinearEvaluator` and `PerColEvaluator`, which forward to them the way the
    two CRTP interfaces do.
- `vector_eval.dfy` (module `VectorEval`): the two loops, `evaluate` and its
  two wrappers.
- `uniform_real_internal.dfy` (module `UniformRealInternal`): the scalar and
  per-lane encoders and a reference decoding of normal binary32/binary64 values
  into `real`.

Modelling choices:

- An expression type's static properties are an `ExprInfo` value. The
  expression itself is an `Expr`, and `Describes` ties the two together.
- `DynamicDim` is the value a compile-time extent takes when the extent is only
  known at run time. The core uses it but does not define it, so `dynamicDim`
  is a parameter. `has_short_col` compares the raw compile-time row count with
  4, so a dynamic row count gets the short-column penalty exactly when
  `dynamicDim < 4`.
- Addresses are natural-number offsets: `m_data` is `offset`, and `pd` is an
  index into the destination array.
- Each evaluator keeps the expression it was built from as a ghost `source`.
  Per-column evaluators also count their `next_column` calls in a ghost
  `column`. This is how `get_value(i)` is tied to element
  `column * ldim + i` of the source storage.
- `get_value` is a Dafny function, so it cannot change the evaluator's state.
- Continuous layout (`ct_has_continuous_layout`, whose definition is not part of this model) is taken to mean that a dense matrix has at most one column or a leading dimension equal to its row count.
- Each `static_assert` (lines 124, 301 and 342) is a precondition. So is the
  rule that a known compile-time extent equals the destination's extent.
- SSE and AVX registers are sequences of their lanes (lane 0 lowest).
  `_mm_castsi128_ps` and its relatives reinterpret bits and change nothing.

A request for linear organisation on a dense, non-continuous expression is
not rejected: lines 408-415 map it to `cached_linear_evaluator` at cost 1000,
which `VectorEvalCost.GenericKind` and `VectorEvalCost.LinearCostAndKind`
state.

## Model

| member | source | states |
|---|---|---|
| VectorEvalCost.GenericCost | light_mat/matrix/matrix_vector_eval.h:405-437 | Linear cost is 0 exactly when dense and continuous, else 1000; per-column cost is 0 or 1000 by density plus 200 exactly when the compile-time row count is below 4. Its helpers `CanDirect` (`can_direct`, lines 408 and 423), `HasShortCol` (`has_short_col`, line 424) and `NormalCost` (`normal_cost` and the linear `cost`, lines 417 and 433) are the named members |
| VectorEvalCost.GenericKind | light_mat/matrix/matrix_vector_eval.h:405-437 | The generic evaluator implements the requested organisation, is never a const evaluator, and is cached exactly when the source cannot be read in place (dense and continuous for linear, dense for per column) |
| VectorEvalCost.Cost | light_mat/matrix/matrix_vector_eval.h:439-471 | Costs are non-negative, 0 for a `const_matrix`, and at least 1000 exactly when a non-constant source cannot be read in place |
| VectorEvalCost.EvaluatorFor | light_mat/matrix/matrix_vector_eval.h:439-471 | The evaluator implements the requested organisation, is a const evaluator exactly for a `const_matrix`, and is cached exactly when the cost reaches 1000 |
| VectorEvalCost.ChooseOrg | light_mat/matrix/matrix_vector_eval.h:35-50 | The chosen organisation is never more expensive than the other; per column is chosen exactly for dense, non-continuous, non-constant sources |
| VectorEvalCost.DefaultPolicy | light_mat/matrix/matrix_vector_eval.h:35-50 | The means is by scalars; the organisation is linear iff linear cost <= per-column cost (ties go to linear) |
| VectorEvalCost.LinearCostAndKind | light_mat/matrix/matrix_vector_eval.h:408-417 | For a non-constant source: linear cost 0 with `continuous_linear_evaluator` when dense and continuous, otherwise 1000 with `cached_linear_evaluator` |
| VectorEvalCost.PerColCostAndKind | light_mat/matrix/matrix_vector_eval.h:423-436 | Per-column cost is normal cost plus the short-column penalty below 4 rows; the evaluator depends only on density (changing the row count or the layout flag leaves it unchanged) |
| VectorEvalCost.ShortContinuousChoosesLinear | light_mat/matrix/matrix_vector_eval.h:42-47 | A dense, continuous, short-column source has strictly higher per-column cost and is always evaluated linearly by `continuous_linear_evaluator` |
| VectorEvalCost.StridedChoosesDensePerCol | light_mat/matrix/matrix_vector_eval.h:42-47 | A dense non-continuous source is evaluated per column by `dense_percol_evaluator`, at cost 200 or 0 |
| VectorEvalCost.NonDenseChoosesCachedLinear | light_mat/matrix/matrix_vector_eval.h:42-47 | A non-dense source is evaluated linearly by `cached_linear_evaluator`; with long columns both costs tie |
| VectorEvalCost.ConstNeverCached | light_mat/matrix/matrix_vector_eval.h:455-471 | A `const_matrix` costs 0 under both organisations, maps to the const evaluator of that organisation, is never cached, and defaults to linear |
| VectorEvalCost.DeclaredCost | light_mat/matrix/matrix_vector_eval.h:439-471 | The `cost` member as declared: absent for a non-constant source under per column, and equal to `Cost` wherever it exists |
| VectorEvalCost.DeclaredPerColCostMissing | light_mat/matrix/matrix_vector_eval.h:43 | For every non-constant source the per-column `cost` read by the default policy does not exist, while the linear one does |
| DenseLayout.FlattenAt | light_mat/matrix/matrix_vector_eval.h:214-262 | In the flattened (materialised, leading dimension = rows) form, position i + j*rows holds element (i, j) |
| DenseLayout.FlattenContinuous | light_mat/matrix/matrix_vector_eval.h:113-136 | The storage of a dense source with continuous layout (leading dimension equal to the row count, or at most one column) begins with its flattened form |
| DenseLayout.FlattenConst | light_mat/matrix/matrix_vector_eval.h:167-186 | Every flattened element of a `const_matrix` is its value |
| DenseLayout.ColumnStartIsProduct | light_mat/matrix/matrix_vector_eval.h:355-356 | Advancing by the leading dimension once per column reaches j * ldim at column j |
| VectorEvaluators.ContinuousLinearEvaluator.constructor | light_mat/matrix/matrix_vector_eval.h:119-128 | Requires a dense source with continuous layout (the `static_assert` at line 124) and reads its storage in place |
| VectorEvaluators.ContinuousLinearEvaluator.GetValue | light_mat/matrix/matrix_vector_eval.h:130-133 | `get_value(k)` is flattened element k of the source |
| VectorEvaluators.DensePerColEvaluator.constructor | light_mat/matrix/matrix_vector_eval.h:144-150 | Keeps the source's leading dimension and storage, with the cursor at column 0 |
| VectorEvaluators.DensePerColEvaluator.GetValue | light_mat/matrix/matrix_vector_eval.h:152-155 | After `column` calls of `next_column`, `get_value(i)` is storage element i + column*ldim, which is source element (i, column) |
| VectorEvaluators.DensePerColEvaluator.NextColumn | light_mat/matrix/matrix_vector_eval.h:157-160 | The cursor advances by exactly ldim and the column count by one |
| VectorEvaluators.ConstLinearEvaluator.constructor | light_mat/matrix/matrix_vector_eval.h:172-177 | Keeps the value of the `const_matrix` |
| VectorEvaluators.ConstLinearEvaluator.GetValue | light_mat/matrix/matrix_vector_eval.h:179-182 | Every index yields the constant's value |
| VectorEvaluators.ConstPerColEvaluator.constructor | light_mat/matrix/matrix_vector_eval.h:194-199 | Keeps the value of the `const_matrix`, at column 0 |
| VectorEvaluators.ConstPerColEvaluator.GetValue | light_mat/matrix/matrix_vector_eval.h:201-204 | Every row yields the constant's value |
| VectorEvaluators.ConstPerColEvaluator.NextColumn | light_mat/matrix/matrix_vector_eval.h:206 | Only the ghost column count moves; the evaluator's value is a constant field and stays as it was |
| VectorEvaluators.Materialize | light_mat/matrix/matrix_vector_eval.h:222 | The cache is a fresh array holding the source column by column |
| VectorEvaluators.CachedLinearEvaluator.constructor | light_mat/matrix/matrix_vector_eval.h:219-224 | Construction materialises the source once into a fresh cache |
| VectorEvaluators.CachedLinearEvaluator.GetValue | light_mat/matrix/matrix_vector_eval.h:226-229 | `get_value(k)` is flattened element k of the source |
| VectorEvaluators.CachedPerColEvaluator.constructor | light_mat/matrix/matrix_vector_eval.h:241-246 | Materialises the source once into a fresh cache whose leading dimension is its row count, with the cursor at column 0 |
| VectorEvaluators.CachedPerColEvaluator.GetValue | light_mat/matrix/matrix_vector_eval.h:248-251 | After `column` calls of `next_column`, `get_value(i)` is cache element i + column*rows, which is source element (i, column) |
| VectorEvaluators.CachedPerColEvaluator.NextColumn | light_mat/matrix/matrix_vector_eval.h:253-256 | The cursor advances by exactly the cache's leading dimension and the column count by one |
| VectorEvaluators.LinearEvaluator.GetValue | light_mat/matrix/matrix_vector_eval.h:61-72 | Whatever the concrete evaluator, `get_value(k)` is flattened element k of its source |
| VectorEvaluators.PerColEvaluator.GetValue | light_mat/matrix/matrix_vector_eval.h:74-84 | Whatever the concrete evaluator, `get_value(i)` is source element (i, current column) |
| VectorEvaluators.PerColEvaluator.NextColumn | light_mat/matrix/matrix_vector_eval.h:86-90 | The evaluator stays valid and its column count goes up by one |
| VectorEval.LinearEvaluate | light_mat/matrix/matrix_vector_eval.h:297-335 | Afterwards `dst[k] == get_value(k)` (the flattened source) for every k below `CTSize` or `nelems()`; every later entry is unchanged |
| VectorEval.WriteColumn | light_mat/matrix/matrix_vector_eval.h:358-361 | The inner loop adds column j (rows below nrows at j*ldim + i) to the columns written, keeping padding rows and everything from the next column on |
| VectorEval.ColumnPass | light_mat/matrix/matrix_vector_eval.h:355-362 | One outer pass writes column j and calls `next_column` exactly once |
| VectorEval.ColumnStep | light_mat/matrix/matrix_vector_eval.h:355-362 | Once column j is written at j*ldim, the facts for columns 0 .. j-1 still hold together with those for column j |
| VectorEval.PerColEvaluate | light_mat/matrix/matrix_vector_eval.h:338-390 | Afterwards `dst[i + j*ldim]` is source element (i, c0 + j) for i < nrows, j < ncols; padding rows and storage from ncols*ldim on are unchanged; `next_column` ran ncols times |
| VectorEval.Evaluate | light_mat/matrix/matrix_vector_eval.h:480-487 | Linear: the first `nelems()` entries are the flattened source, the rest unchanged. Per column: padding and tail unchanged. Per column, or linear into a destination whose leading dimension is its row count or which has at most one column: every destination element (i, j) is source element (i, j) |
| VectorEval.NewLinearEvaluator | light_mat/matrix/matrix_vector_eval.h:485 | The evaluator built for linear organisation is the class the evaluator map names (`EvaluatorFor(info, Linear)`), valid over the source, its cache fresh |
| VectorEval.NewPerColEvaluator | light_mat/matrix/matrix_vector_eval.h:485 | The evaluator built for per-column organisation is the class the evaluator map names (`EvaluatorFor(info, PerColumn)`), valid over the source at column 0, fresh |
| VectorEval.LinearResultIsMatrix | light_mat/matrix/matrix_vector_eval.h:310-314 | Linear output into a destination whose leading dimension is its row count, or which has at most one column, puts every element (i, j) in its place |
| VectorEval.DenseColumnsFromStorage | light_mat/matrix/matrix_vector_eval.h:351-362 | For a dense source of stride ldimS copied per column: `dst[i + j*ldimD] == src[i + j*ldimS]` |
| VectorEval.LinearByScalarsEvaluate | light_mat/matrix/matrix_vector_eval.h:489-494 | As `Evaluate` under (linear, by scalars): the flattened source in the first `nelems()` entries, the rest unchanged, and every element in place when ldim equals the row count or there is at most one column |
| VectorEval.PerColByScalarsEvaluate | light_mat/matrix/matrix_vector_eval.h:496-501 | As `Evaluate` under (per column, by scalars): every element in place, padding and tail unchanged |
| UniformRealInternal.RandBitsToC1o2F32 | light_mat/random/internal/uniform_real_internal.h:22-32 | The 23 mantissa bits of the result are those of u; every other bit is that of 1.0f |
| UniformRealInternal.RandBitsToC1o2F64 | light_mat/random/internal/uniform_real_internal.h:34-44 | The 52 mantissa bits of the result are those of u; every other bit is that of 1.0 |
| UniformRealInternal.F32Fields | light_mat/random/internal/uniform_real_internal.h:30 | The binary32 pattern has sign 0, exponent field 127, and mantissa equal to the low 23 bits of u |
| UniformRealInternal.F64Fields | light_mat/random/internal/uniform_real_internal.h:42 | The binary64 pattern has sign 0, exponent field 1023, and mantissa equal to the low 52 bits of u |
| UniformRealInternal.F32ValueInUnitOctave | light_mat/random/internal/uniform_real_internal.h:20-32 | The pattern is a normal number of value 1 + m / 2^23 (m the low 23 bits of u), in [1, 2) |
| UniformRealInternal.F64ValueInUnitOctave | light_mat/random/internal/uniform_real_internal.h:34-44 | The pattern is a normal number of value 1 + m / 2^52 (m the low 52 bits of u), in [1, 2) |
| UniformRealInternal.F32SameLowBitsSameResult | light_mat/random/internal/uniform_real_internal.h:30 | Inputs agreeing on the low 23 bits give identical output |
| UniformRealInternal.F32SameResultSameLowBits | light_mat/random/internal/uniform_real_internal.h:30 | Identical outputs come from inputs agreeing on the low 23 bits |
| UniformRealInternal.F32LowBitsOnly | light_mat/random/internal/uniform_real_internal.h:30 | Output equality is equivalent to equality of the low 23 input bits |
| UniformRealInternal.F64SameLowBitsSameResult | light_mat/random/internal/uniform_real_internal.h:42 | Inputs agreeing on the low 52 bits give identical output |
| UniformRealInternal.F64SameResultSameLowBits | light_mat/random/internal/uniform_real_internal.h:42 | Identical outputs come from inputs agreeing on the low 52 bits |
| UniformRealInternal.F64LowBitsOnly | light_mat/random/internal/uniform_real_internal.h:42 | Output equality is equivalent to equality of the low 52 input bits |
| UniformRealInternal.Pow2Values | light_mat/random/internal/uniform_real_internal.h:30-42 | The masks `0x007fffff` and `0x000fffffffffffff` are 2^23 - 1 and 2^52 - 1: they keep exactly the bits the decoding divides by 2^23 and 2^52 |
| UniformRealInternal.Set1F32 | light_mat/random/internal/uniform_real_internal.h:50-51 | `_mm_set1_ps` / `_mm256_set1_ps`: a register of n lanes, each holding the given pattern |
| UniformRealInternal.AndNotF32 | light_mat/random/internal/uniform_real_internal.h:51 | `_mm_andnot_ps` / `_mm256_andnot_ps`: each lane is the complement of a's lane and-ed with b's lane |
| UniformRealInternal.OrF32 | light_mat/random/internal/uniform_real_internal.h:49 | `_mm_or_ps` / `_mm256_or_ps`: each lane is the bitwise or of the matching lanes |
| UniformRealInternal.Set1F64 | light_mat/random/internal/uniform_real_internal.h:58-59 | `_mm_set1_pd` / `_mm256_set1_pd`: a register of n lanes, each holding the given pattern |
| UniformRealInternal.AndNotF64 | light_mat/random/internal/uniform_real_internal.h:59 | `_mm_andnot_pd` / `_mm256_andnot_pd`: each lane is the complement of a's lane and-ed with b's lane |
| UniformRealInternal.OrF64 | light_mat/random/internal/uniform_real_internal.h:57 | `_mm_or_pd` / `_mm256_or_pd`: each lane is the bitwise or of the matching lanes |
| UniformRealInternal.LaneC1o2F32 | light_mat/random/internal/uniform_real_internal.h:49-51 | Per lane, 0x3f800000 or-ed with (the complement of 0xc0000000 and-ed with u) equals the scalar result, u and-ed with 0x007fffff then or-ed with 0x3f800000 |
| UniformRealInternal.LaneC1o2F64 | light_mat/random/internal/uniform_real_internal.h:57-59 | Per lane, 0x3ff0000000000000 or-ed with (the complement of 0xc000000000000000 and-ed with u) equals the scalar f64 result |
| UniformRealInternal.VectorC1o2F32 | light_mat/random/internal/uniform_real_internal.h:46-52 | `or(set1(1.0f), andnot(set1(-2.0f), u))` is the scalar conversion in every lane |
| UniformRealInternal.VectorC1o2F64 | light_mat/random/internal/uniform_real_internal.h:54-60 | `or(set1(1.0), andnot(set1(-2.0), u))` is the scalar conversion in every lane |
| UniformRealInternal.RandBitsToC1o2F32Sse | light_mat/random/internal/uniform_real_internal.h:46-52 | Each of the four lanes is the scalar binary32 conversion of that lane |
| UniformRealInternal.RandBitsToC1o2F64Sse | light_mat/random/internal/uniform_real_internal.h:54-60 | Each of the two lanes is the scalar binary64 conversion of that lane |
| UniformRealInternal.RandBitsToC1o2F32Avx | light_mat/random/internal/uniform_real_internal.h:64-70 | Each of the eight lanes is the scalar binary32 conversion of that lane |
| UniformRealInternal.RandBitsToC1o2F64Avx | light_mat/random/internal/uniform_real_internal.h:72-78 | Each of the four lanes is the scalar binary64 conversion of that lane |
| UniformRealInternal.VectorF32InUnitOctave | light_mat/random/internal/uniform_real_internal.h:46-52 | Every lane of a converted register is a normal binary32 value in [1, 2) |
| UniformRealInternal.VectorF64InUnitOctave | light_mat/random/internal/uniform_real_internal.h:54-60 | Every lane of a converted register is a normal binary64 value in [1, 2) |

## Left out

- The `by_simd` means (line 24) is declared but never implemented, so `Means` has only `ByScalars`.
- The CRTP interfaces are modelled by two forwarding datatypes. The `is_base_of` checks (lines 94-108) are compile-time type plumbing and are not modelled.
- `vector_eval_impl_map` (lines 274-293) picks a loop by compile-time size or row count. Those extents are the input `CtDims`. `binary_ct_cols` does not change what the loops do and is not modelled.
- The external matrix types are not modelled: `IDenseMatrix`, `dense_matrix`, `const_matrix`, `matrix_traits`, `ct_rows`, `binary_ct_size` and the others. They appear only as `Expr`, `Shape` and `ExprInfo`. Materialising an expression into a `dense_matrix` (the `m_cache(X)` member initialisers) is taken to give column-major storage whose leading dimension is its row count.
- `index_t` is an unbounded natural number; overflow and negative extents are not modelled.
- Each `static_assert` is modelled as always enabled, although the code checks them only when `LMAT_USE_STATIC_ASSERT` is defined.
- Aliasing: the source's storage is a value (`seq`) apart from the destination array, and the loops require the destination to lie outside the evaluator's footprint. A source whose storage overlaps the destination (for instance a strided view of `dst` itself) cannot be expressed, so evaluation that reads entries lines 358-361 or 313/332 have already overwritten is not modelled; every ensures about the written values, `VectorEval.DenseColumnsFromStorage` included, holds for disjoint source and destination only.
- Generic element types: values are only copied, never computed on.
- The linear loop writes `nelems()` consecutive entries whatever the destination's leading dimension. The model states exactly that. Every element lands in its place when the leading dimension equals the row count or the destination has at most one column, and `VectorEval.Evaluate` promises both cases.
- Floating-point reinterpretation through unions and `_mm_cast*` is not modelled; patterns stay bit-vectors, and their value is an exact `real` from the reference decoding. The `_mm_*` intrinsics are modelled only by their per-lane bitwise meaning.
- Inlining macros and the header-guard spelling (lines 13-14) are build matters.
- `light_mat/math/math_functors.h` and `light_mat/math/fun_tags.h` are not part of this model: they are one-line wrappers over math functions not shown here, and empty tag types.
- `tests/random/test_uniform_int.cpp` is not part of this model: it tests a distribution statistically, in floating point.

## Findings

| source | as written | input that shows it | evidently intended | confidence | as-written member | corrected member |
|---|---|---|---|---|---|---|
| light_mat/matrix/matrix_vector_eval.h:43 | `vector_eval_default_policy` reads `vector_eval<Expr, per_column, means>::cost`. The generic per-column specialisation (lines 446-452) declares only `normal_cost` and `shortv_cost`, so the member named does not exist. | Any non-constant expression, for example a `dense_matrix<double>` (isDense, not const): instantiating its default policy names a missing member. | The per-column cost is `generic_vector_eval<Expr, per_column, by_scalars>::cost` (line 436): normal cost plus the short-column penalty. | not executed | VectorEvalCost.DeclaredCost, VectorEvalCost.DeclaredPerColCostMissing | VectorEvalCost.Cost |
