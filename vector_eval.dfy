/**
 * The evaluation loops (`linear_eval_impl`, `percol_eval_impl`) and the
 * dispatch entry point `evaluate` with its two fixed-policy wrappers.
 *
 * Compile-time sizes are integers that equal `dynamicDim` when the size is
 * only known at run time; the numeric value of `DynamicDim` is not fixed by
 * the core, so it is a parameter here.  Destination addresses are offsets
 * into the destination's storage array.
 */
module VectorEval {
  import opened DenseLayout
  import opened VectorEvaluators
  import VectorEvalCost

  /**
   * Compile-time extents of an (expression, destination) pair
   * (`binary_ct_size`, `binary_ct_rows`): a known extent, or `dynamicDim`.
   */
  datatype CtDims = CtDims(size: int, rows: int)

  /** A compile-time element count is positive (the `static_assert` of `linear_eval_impl`) and is the destination's. */
  predicate LinearSizeOk(ctSize: int, dynamicDim: int, shape: Shape)
  {
    ctSize == dynamicDim || (ctSize > 0 && ctSize == shape.Nelems())
  }

  /** A compile-time row count is positive (the `static_assert` of `percol_eval_impl`) and is the destination's. */
  predicate PerColRowsOk(ctRows: int, dynamicDim: int, shape: Shape)
  {
    ctRows == dynamicDim || (ctRows > 0 && ctRows == shape.rows)
  }

  /**
   * `linear_eval_impl<T, CTSize, by_scalars>::evaluate` and its `DynamicDim`
   * specialisation: writes element k of the evaluator to `dst[k]` for every
   * k below the element count.
   */
  method LinearEvaluate<T>(ev: LinearEvaluator<T>, dst: array<T>, shape: Shape, ctSize: int, dynamicDim: int)
    requires ev.Valid() && dst !in ev.Repr()
    requires LinearSizeOk(ctSize, dynamicDim, shape)
    requires shape.Nelems() <= dst.Length
    requires shape.Nelems() <= ev.Source().rows * ev.Source().cols
    modifies dst
    ensures ev.Valid()
    ensures forall k :: 0 <= k < shape.Nelems() ==> dst[k] == ev.GetValue(k)
    ensures FlatPrefix(dst[..], ev.Source(), shape.Nelems())
    ensures KeptFrom(dst[..], old(dst[..]), shape.Nelems())
  {
    var len: nat := if ctSize == dynamicDim then shape.Nelems() else ctSize;
    var i := 0;
    while i < len
      invariant 0 <= i <= len
      invariant forall k :: 0 <= k < i ==> dst[k] == ev.GetValue(k)
      invariant forall k :: i <= k < dst.Length ==> dst[k] == old(dst[k])
    {
      dst[i] := ev.GetValue(i);
      i := i + 1;
    }
  }

  // ---- what a destination holds ----

  /** The first n entries of `d` are the first n elements of the flattened source. */
  ghost predicate FlatPrefix<T>(d: seq<T>, x: Expr<T>, n: nat)
  {
    && x.Valid() && n <= |d| && n <= x.rows * x.cols
    && forall k :: 0 <= k < n ==> d[k] == Flatten(x)[k]
  }

  /** Columns 0 .. n-1 of `d` (rows 0 .. nrows-1, leading dimension ldim) hold columns c0 .. c0+n-1 of `src`. */
  ghost predicate ColumnsHold<T>(d: seq<T>, src: Expr<T>, c0: nat, nrows: nat, ldim: nat, n: nat)
  {
    && src.Valid() && nrows <= src.rows && c0 + n <= src.cols
    && forall i, j :: 0 <= i < nrows && 0 <= j < n ==>
         ColumnMajor(i, j, ldim) < |d| && d[ColumnMajor(i, j, ldim)] == src.Elem(i, c0 + j)
  }

  /** The padding rows nrows .. ldim-1 of columns 0 .. n-1 are as in `orig`. */
  ghost predicate PaddingKept<T>(d: seq<T>, orig: seq<T>, nrows: nat, ldim: nat, n: nat)
  {
    && |d| == |orig|
    && forall i, j :: nrows <= i < ldim && 0 <= j < n && ColumnMajor(i, j, ldim) < |d| ==>
         d[ColumnMajor(i, j, ldim)] == orig[ColumnMajor(i, j, ldim)]
  }

  /** Every entry from `from` on is as in `orig`. */
  ghost predicate KeptFrom<T>(d: seq<T>, orig: seq<T>, from: nat)
  {
    |d| == |orig| && forall k :: from <= k < |d| ==> d[k] == orig[k]
  }

  // ---- the per-column loop ----

  /**
   * The inner loop of `percol_eval_impl` for column j: writes rows
   * 0 .. nrows-1 of the evaluator's current column to `dst[pd ..]` with
   * `pd == j * ldim` and touches nothing else, so the columns written so far
   * grow by one.
   */
  method WriteColumn<T>(ev: PerColEvaluator<T>, dst: array<T>, pd: nat, nrows: nat,
                        ghost ncols: nat, ghost ldim: nat, ghost j: nat, ghost c0: nat, ghost orig: seq<T>)
    requires ev.Valid() && dst !in ev.Repr()
    requires pd == ColumnStart(j, ldim) && j < ncols && Shape(nrows, ncols, ldim).FitsIn(dst.Length)
    requires ev.Column() == c0 + j && ev.Column() < ev.Source().cols
    requires ColumnsHold(dst[..], ev.Source(), c0, nrows, ldim, j)
    requires PaddingKept(dst[..], orig, nrows, ldim, j) && KeptFrom(dst[..], orig, pd)
    modifies dst
    ensures ColumnsHold(dst[..], ev.Source(), c0, nrows, ldim, j + 1)
    ensures PaddingKept(dst[..], orig, nrows, ldim, j + 1) && KeptFrom(dst[..], orig, pd + ldim)
    ensures ev.Valid()
  {
    ColumnStartIsProduct(j, ldim);
    if nrows > 0 {
      ColumnMajorWithin(nrows - 1, j, nrows, ncols, ldim);
    }
    ghost var before := dst[..];
    var i := 0;
    while i < nrows
      invariant 0 <= i <= nrows
      invariant forall k :: pd <= k < pd + i ==> dst[k] == ev.Source().Elem(k - pd, ev.Column())
      invariant forall k :: 0 <= k < dst.Length && !(pd <= k < pd + i) ==> dst[k] == before[k]
    {
      dst[pd + i] := ev.GetValue(i);
      i := i + 1;
    }
    ColumnStep(dst[..], before, ev.Source(), c0, nrows, ldim, j, pd, orig);
  }

  /** One pass of the outer loop of `percol_eval_impl`: the inner loop for column j, then `next_column`. */
  method ColumnPass<T>(ev: PerColEvaluator<T>, dst: array<T>, pd: nat, nrows: nat,
                       ghost ncols: nat, ghost ldim: nat, ghost j: nat, ghost c0: nat, ghost orig: seq<T>)
    requires ev.Valid() && dst !in ev.Repr()
    requires pd == ColumnStart(j, ldim) && j < ncols && Shape(nrows, ncols, ldim).FitsIn(dst.Length)
    requires ev.Column() == c0 + j && ev.Column() < ev.Source().cols
    requires ColumnsHold(dst[..], ev.Source(), c0, nrows, ldim, j)
    requires PaddingKept(dst[..], orig, nrows, ldim, j) && KeptFrom(dst[..], orig, pd)
    modifies dst, ev.Cursor()
    ensures ev.Valid() && ev.Column() == c0 + j + 1
    ensures ColumnsHold(dst[..], ev.Source(), c0, nrows, ldim, j + 1)
    ensures PaddingKept(dst[..], orig, nrows, ldim, j + 1) && KeptFrom(dst[..], orig, pd + ldim)
  {
    WriteColumn(ev, dst, pd, nrows, ncols, ldim, j, c0, orig);
    ghost var written := dst[..];
    ev.NextColumn();
    assert dst[..] == written;
  }

  /**
   * `percol_eval_impl<T, CTRows, CTCols, by_scalars>::evaluate` and its
   * `DynamicDim` specialisation: for each column j, writes rows 0 .. nrows-1
   * of the evaluator's current column at `pd = j * ldim`, then advances the
   * evaluator once, so `next_column` runs once per column.  Padding rows and
   * storage past the last column are left alone.
   */
  method PerColEvaluate<T>(ev: PerColEvaluator<T>, dst: array<T>, shape: Shape, ctRows: int, dynamicDim: int)
    requires ev.Valid() && dst !in ev.Repr()
    requires PerColRowsOk(ctRows, dynamicDim, shape)
    requires shape.FitsIn(dst.Length)
    requires shape.rows <= ev.Source().rows && ev.Column() + shape.cols <= ev.Source().cols
    modifies dst, ev.Cursor()
    ensures ev.Valid()
    ensures ev.Column() == old(ev.Column()) + shape.cols
    ensures ColumnsHold(dst[..], ev.Source(), old(ev.Column()), shape.rows, shape.ldim, shape.cols)
    ensures PaddingKept(dst[..], old(dst[..]), shape.rows, shape.ldim, shape.cols)
    ensures KeptFrom(dst[..], old(dst[..]), ColumnStart(shape.cols, shape.ldim))
  {
    var nrows: nat := if ctRows == dynamicDim then shape.rows else ctRows;
    var ncols := shape.cols;
    var ldim := shape.ldim;
    ghost var c0 := ev.Column();
    ghost var src := ev.Source();
    ghost var orig := dst[..];
    var pd := 0;
    var j := 0;
    while j < ncols
      invariant 0 <= j <= ncols && pd == ColumnStart(j, ldim)
      invariant ev.Valid() && ev.Column() == c0 + j && ev.Source() == src
      invariant ColumnsHold(dst[..], src, c0, nrows, ldim, j)
      invariant PaddingKept(dst[..], orig, nrows, ldim, j)
      invariant KeptFrom(dst[..], orig, pd)
    {
      ColumnPass(ev, dst, pd, nrows, ncols, ldim, j, c0, orig);
      pd := pd + ldim;
      j := j + 1;
    }
  }

  /** One outer step of `PerColEvaluate`: the loop invariant holds for j + 1 columns once column j is written at pd. */
  lemma ColumnStep<T>(after: seq<T>, before: seq<T>, src: Expr<T>, c0: nat, nrows: nat, ldim: nat, j: nat, pd: nat, orig: seq<T>)
    requires |after| == |before| && pd == j * ldim && nrows <= ldim
    requires ColumnsHold(before, src, c0, nrows, ldim, j) && c0 + j < src.cols
    requires PaddingKept(before, orig, nrows, ldim, j) && KeptFrom(before, orig, pd)
    requires nrows == 0 || pd + nrows <= |after|
    requires forall k :: pd <= k < pd + nrows ==> after[k] == src.Elem(k - pd, c0 + j)
    requires forall k :: 0 <= k < |after| && !(pd <= k < pd + nrows) ==> after[k] == before[k]
    ensures ColumnsHold(after, src, c0, nrows, ldim, j + 1)
    ensures PaddingKept(after, orig, nrows, ldim, j + 1)
    ensures KeptFrom(after, orig, pd + ldim)
  {
    forall i, jj | 0 <= i < ldim && 0 <= jj < j
      ensures ColumnMajor(i, jj, ldim) < pd
    {
      ColumnMajorBeforeColumn(i, jj, j, ldim);
    }
    forall i | 0 <= i < ldim
      ensures ColumnMajor(i, j, ldim) == pd + i
    {
    }
  }

  // ---- dispatch ----

  /** Whether an expression descriptor describes an expression. */
  predicate Describes<T>(info: VectorEvalCost.ExprInfo, x: Expr<T>, dynamicDim: int)
  {
    && (info.isConst <==> x.Const?)
    && (info.isDense <==> x.Dense?)
    && (x.Dense? && info.isContinuous ==> x.HasContinuousLayout())
    && (info.ctRows == dynamicDim || info.ctRows == x.rows)
  }

  /**
   * `evaluate(src, dst, vector_eval_policy<Org, Means>)`: builds the
   * evaluator that the evaluator map names for the policy's organisation and
   * runs the matching loop.  Under per-column organisation every element of
   * the destination receives its value; under linear organisation the first
   * `nelems()` storage elements receive the flattened source, which is every
   * element when the destination has continuous layout.
   */
  method Evaluate<T>(info: VectorEvalCost.ExprInfo, x: Expr<T>, dst: array<T>, shape: Shape,
                     policy: VectorEvalCost.Policy, ct: CtDims, dynamicDim: int)
    requires x.Valid() && Describes(info, x, dynamicDim)
    requires shape.FitsIn(dst.Length) && x.rows == shape.rows && x.cols == shape.cols
    requires policy.org == VectorEvalCost.Linear ==>
      LinearSizeOk(ct.size, dynamicDim, shape) && shape.Nelems() <= dst.Length
    requires policy.org == VectorEvalCost.PerColumn ==> PerColRowsOk(ct.rows, dynamicDim, shape)
    modifies dst
    ensures policy.org == VectorEvalCost.Linear ==>
      FlatPrefix(dst[..], x, shape.Nelems()) && KeptFrom(dst[..], old(dst[..]), shape.Nelems())
    ensures policy.org == VectorEvalCost.PerColumn ==>
      PaddingKept(dst[..], old(dst[..]), shape.rows, shape.ldim, shape.cols) &&
      KeptFrom(dst[..], old(dst[..]), shape.cols * shape.ldim)
    ensures policy.org == VectorEvalCost.PerColumn || shape.ldim == shape.rows || shape.cols <= 1 ==>
      ColumnsHold(dst[..], x, 0, shape.rows, shape.ldim, shape.cols)
  {
    ColumnStartIsProduct(shape.cols, shape.ldim);
    match policy.org
    case Linear =>
      var ev := NewLinearEvaluator(info, x, dynamicDim);
      LinearEvaluate(ev, dst, shape, ct.size, dynamicDim);
      LinearResultIsMatrix(dst[..], x, shape);
    case PerColumn =>
      var ev := NewPerColEvaluator(info, x, dynamicDim);
      PerColEvaluate(ev, dst, shape, ct.rows, dynamicDim);
  }

  /** `typename vector_eval<Expr, as_linear_vec, by_scalars>::evaluator_type evaluator(src)`: the linear evaluator the evaluator map names, built over x. */
  method NewLinearEvaluator<T>(info: VectorEvalCost.ExprInfo, x: Expr<T>, ghost dynamicDim: int)
    returns (ev: LinearEvaluator<T>)
    requires x.Valid() && Describes(info, x, dynamicDim)
    ensures ev.Kind() == VectorEvalCost.EvaluatorFor(info, VectorEvalCost.Linear)
    ensures ev.Valid() && ev.Source() == x && fresh(ev.Repr())
  {
    match VectorEvalCost.EvaluatorFor(info, VectorEvalCost.Linear)
    case ContinuousLinear =>
      var c := new ContinuousLinearEvaluator(x);
      ev := OfContinuous(c);
    case ConstLinear =>
      var c := new ConstLinearEvaluator(x);
      ev := OfConst(c);
    case CachedLinear =>
      var c := new CachedLinearEvaluator(x);
      ev := OfCached(c);
  }

  /** `typename vector_eval<Expr, per_column, by_scalars>::evaluator_type evaluator(src)`: the per-column evaluator the evaluator map names, at column 0 of x. */
  method NewPerColEvaluator<T>(info: VectorEvalCost.ExprInfo, x: Expr<T>, ghost dynamicDim: int)
    returns (ev: PerColEvaluator<T>)
    requires x.Valid() && Describes(info, x, dynamicDim)
    ensures ev.Kind() == VectorEvalCost.EvaluatorFor(info, VectorEvalCost.PerColumn)
    ensures ev.Valid() && ev.Source() == x && ev.Column() == 0 && fresh(ev.Repr())
  {
    match VectorEvalCost.EvaluatorFor(info, VectorEvalCost.PerColumn)
    case DensePerCol =>
      var d := new DensePerColEvaluator(x);
      ev := OfDense(d);
    case ConstPerCol =>
      var c := new ConstPerColEvaluator(x);
      ev := OfConstant(c);
    case CachedPerCol =>
      var c := new CachedPerColEvaluator(x);
      ev := OfCache(c);
  }

  /** Flattened values written linearly into a continuous destination put every element in its place. */
  lemma LinearResultIsMatrix<T>(d: seq<T>, x: Expr<T>, shape: Shape)
    requires x.rows == shape.rows && x.cols == shape.cols
    requires FlatPrefix(d, x, shape.Nelems())
    ensures shape.ldim == shape.rows || shape.cols <= 1 ==> ColumnsHold(d, x, 0, shape.rows, shape.ldim, shape.cols)
  {
    if shape.ldim == shape.rows || shape.cols <= 1 {
      forall i, j | 0 <= i < shape.rows && 0 <= j < shape.cols
        ensures ColumnMajor(i, j, shape.ldim) < |d| && d[ColumnMajor(i, j, shape.ldim)] == x.Elem(i, j)
      {
        FlattenAt(x, i, j);
      }
    }
  }

  /** A dense source copied column by column: dst[i + j*ldimD] == src[i + j*ldimS]. */
  lemma DenseColumnsFromStorage<T>(d: seq<T>, x: Expr<T>, ldim: nat)
    requires x.Dense? && ColumnsHold(d, x, 0, x.rows, ldim, x.cols)
    ensures forall i, j :: 0 <= i < x.rows && 0 <= j < x.cols ==>
      ColumnMajor(i, j, x.ldim) < |x.data| && ColumnMajor(i, j, ldim) < |d| &&
      d[ColumnMajor(i, j, ldim)] == x.data[ColumnMajor(i, j, x.ldim)]
  {
    forall i, j | 0 <= i < x.rows && 0 <= j < x.cols
      ensures ColumnMajor(i, j, x.ldim) < |x.data| && x.Elem(i, j) == x.data[ColumnMajor(i, j, x.ldim)]
    {
      ColumnMajorWithin(i, j, x.rows, x.cols, x.ldim);
    }
  }

  /** `linear_by_scalars_evaluate`: `evaluate` under the policy (linear, by scalars). */
  method LinearByScalarsEvaluate<T>(info: VectorEvalCost.ExprInfo, x: Expr<T>, dst: array<T>, shape: Shape,
                                    ct: CtDims, dynamicDim: int)
    requires x.Valid() && Describes(info, x, dynamicDim)
    requires shape.FitsIn(dst.Length) && x.rows == shape.rows && x.cols == shape.cols
    requires LinearSizeOk(ct.size, dynamicDim, shape) && shape.Nelems() <= dst.Length
    modifies dst
    ensures FlatPrefix(dst[..], x, shape.Nelems())
    ensures KeptFrom(dst[..], old(dst[..]), shape.Nelems())
    ensures shape.ldim == shape.rows || shape.cols <= 1 ==> ColumnsHold(dst[..], x, 0, shape.rows, shape.ldim, shape.cols)
  {
    Evaluate(info, x, dst, shape, VectorEvalCost.Policy(VectorEvalCost.Linear, VectorEvalCost.ByScalars), ct, dynamicDim);
  }

  /** `percol_by_scalars_evaluate`: `evaluate` under the policy (per column, by scalars). */
  method PerColByScalarsEvaluate<T>(info: VectorEvalCost.ExprInfo, x: Expr<T>, dst: array<T>, shape: Shape,
                                    ct: CtDims, dynamicDim: int)
    requires x.Valid() && Describes(info, x, dynamicDim)
    requires shape.FitsIn(dst.Length) && x.rows == shape.rows && x.cols == shape.cols
    requires PerColRowsOk(ct.rows, dynamicDim, shape)
    modifies dst
    ensures ColumnsHold(dst[..], x, 0, shape.rows, shape.ldim, shape.cols)
    ensures PaddingKept(dst[..], old(dst[..]), shape.rows, shape.ldim, shape.cols)
    ensures KeptFrom(dst[..], old(dst[..]), shape.cols * shape.ldim)
  {
    Evaluate(info, x, dst, shape, VectorEvalCost.Policy(VectorEvalCost.PerColumn, VectorEvalCost.ByScalars), ct, dynamicDim);
  }
}
