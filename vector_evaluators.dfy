/**
 * The vector evaluators: value producers that the evaluation loops read.
 * A linear evaluator serves the elements of its source in flattened order;
 * a per-column evaluator serves the rows of its current column and moves
 * to the next column on `NextColumn`.
 *
 * Every evaluator keeps the expression it was built from as a ghost
 * `source`; per-column evaluators also count their `NextColumn` calls in a
 * ghost `column`.  Neither exists in the source program.
 */
module VectorEvaluators {
  import opened DenseLayout
  import VectorEvalCost

  /** `continuous_linear_evaluator`: reads the storage of a dense source with continuous layout in place. */
  class ContinuousLinearEvaluator<T> {
    const data: seq<T>
    ghost const source: Expr<T>

    ghost predicate Valid()
    {
      source.Valid() && source.HasContinuousLayout() && data == source.data
    }

    /** The source must have continuous layout (the `static_assert` of the constructor). */
    constructor (x: Expr<T>)
      requires x.Valid() && x.HasContinuousLayout()
      ensures Valid() && source == x
    {
      data := x.data;
      source := x;
    }

    function GetValue(k: nat): (v: T)
      requires Valid() && k < source.rows * source.cols
      ensures v == Flatten(source)[k]
    {
      FlattenContinuous(source);
      data[k]
    }
  }

  /** `dense_percol_evaluator`: walks the storage of a dense source one leading dimension per column. */
  class DensePerColEvaluator<T> {
    const ldim: nat
    const data: seq<T>
    /** `m_data`, as an offset into `data` */
    var offset: nat
    ghost const source: Expr<T>
    ghost var column: nat

    ghost predicate Valid()
      reads this
    {
      source.Valid() && source.Dense? && data == source.data && ldim == source.ldim
      && offset == column * ldim
    }

    constructor (x: Expr<T>)
      requires x.Valid() && x.Dense?
      ensures Valid() && source == x && column == 0
    {
      ldim := x.ldim;
      data := x.data;
      offset := 0;
      source := x;
      column := 0;
    }

    /** After k calls of NextColumn, row i is storage element k * ldim + i. */
    function GetValue(i: nat): (v: T)
      reads this
      requires Valid() && i < source.rows && column < source.cols
      ensures ColumnMajor(i, column, ldim) < |data| && v == data[ColumnMajor(i, column, ldim)]
      ensures v == source.Elem(i, column)
    {
      ColumnMajorWithin(i, column, source.rows, source.cols, ldim);
      data[offset + i]
    }

    method NextColumn()
      requires Valid()
      modifies this
      ensures Valid()
      ensures offset == old(offset) + ldim && column == old(column) + 1
    {
      offset := offset + ldim;
      column := column + 1;
    }
  }

  /** `const_linear_evaluator`: serves the value of a `const_matrix` at every index. */
  class ConstLinearEvaluator<T> {
    const value: T
    ghost const source: Expr<T>

    ghost predicate Valid()
    {
      source.Const? && value == source.value
    }

    constructor (x: Expr<T>)
      requires x.Const?
      ensures Valid() && source == x
    {
      value := x.value;
      source := x;
    }

    function GetValue(k: nat): (v: T)
      requires Valid()
      ensures v == source.value
    {
      value
    }
  }

  /** `const_percol_evaluator`: serves the value of a `const_matrix` in every column; `next_column` does nothing. */
  class ConstPerColEvaluator<T> {
    const value: T
    ghost const source: Expr<T>
    ghost var column: nat

    ghost predicate Valid()
    {
      source.Const? && value == source.value
    }

    constructor (x: Expr<T>)
      requires x.Const?
      ensures Valid() && source == x && column == 0
    {
      value := x.value;
      source := x;
      column := 0;
    }

    function GetValue(i: nat): (v: T)
      requires Valid()
      ensures v == source.value
    {
      value
    }

    /** Only the ghost count of calls moves; the evaluator itself is left as it was. */
    method NextColumn()
      modifies this
      ensures column == old(column) + 1
    {
      column := column + 1;
    }
  }

  /** The cache of a cached evaluator: a fresh dense matrix holding the source's elements column by column (its leading dimension is its row count). */
  method Materialize<T>(x: Expr<T>) returns (cache: array<T>)
    requires x.Valid()
    ensures fresh(cache) && cache[..] == Flatten(x)
  {
    var flat := Flatten(x);
    cache := new T[|flat|](k requires 0 <= k < |flat| => flat[k]);
  }

  /** `cached_linear_evaluator`: materializes its source once, at construction, and reads the cache linearly. */
  class CachedLinearEvaluator<T> {
    const cache: array<T>
    ghost const source: Expr<T>

    ghost predicate Valid()
      reads cache
    {
      source.Valid() && cache[..] == Flatten(source)
    }

    constructor (x: Expr<T>)
      requires x.Valid()
      ensures Valid() && source == x && fresh(cache)
    {
      var m := Materialize(x);
      cache := m;
      source := x;
    }

    function GetValue(k: nat): (v: T)
      reads cache
      requires Valid() && k < source.rows * source.cols
      ensures v == Flatten(source)[k]
    {
      cache[k]
    }
  }

  /** `cached_percol_evaluator`: materializes its source once, at construction, and walks the cache column by column. */
  class CachedPerColEvaluator<T> {
    const cache: array<T>
    const ldim: nat
    /** `m_data`, as an offset into `cache` */
    var offset: nat
    ghost const source: Expr<T>
    ghost var column: nat

    ghost predicate Valid()
      reads this, cache
    {
      source.Valid() && cache[..] == Flatten(source) && ldim == source.rows
      && offset == column * ldim
    }

    constructor (x: Expr<T>)
      requires x.Valid()
      ensures Valid() && source == x && column == 0 && fresh(cache)
    {
      var m := Materialize(x);
      cache := m;
      ldim := x.rows;
      offset := 0;
      source := x;
      column := 0;
    }

    /** After k calls of NextColumn, row i is cache element k * ldim + i. */
    function GetValue(i: nat): (v: T)
      reads this, cache
      requires Valid() && i < source.rows && column < source.cols
      ensures ColumnMajor(i, column, ldim) < cache.Length && v == cache[ColumnMajor(i, column, ldim)]
      ensures v == source.Elem(i, column)
    {
      FlattenAt(source, i, column);
      cache[offset + i]
    }

    method NextColumn()
      requires Valid()
      modifies this
      ensures Valid()
      ensures offset == old(offset) + ldim && column == old(column) + 1
    {
      assert offset + ldim == (column + 1) * ldim;
      offset := offset + ldim;
      column := column + 1;
    }
  }

  /** The linear capability (`ILinearVectorEvaluator`): forwards to the concrete evaluator. */
  datatype LinearEvaluator<T> =
    | OfContinuous(continuous: ContinuousLinearEvaluator<T>)
    | OfConst(constant: ConstLinearEvaluator<T>)
    | OfCached(cached: CachedLinearEvaluator<T>)
  {
    function Kind(): VectorEvalCost.EvaluatorKind
    {
      match this
      case OfContinuous(_) => VectorEvalCost.ContinuousLinear
      case OfConst(_) => VectorEvalCost.ConstLinear
      case OfCached(_) => VectorEvalCost.CachedLinear
    }

    ghost function Repr(): set<object>
    {
      match this
      case OfCached(c) => {c.cache}
      case _ => {}
    }

    ghost function Source(): Expr<T>
    {
      match this
      case OfContinuous(c) => c.source
      case OfConst(c) => c.source
      case OfCached(c) => c.source
    }

    ghost predicate Valid()
      reads Repr()
    {
      match this
      case OfContinuous(c) => c.Valid()
      case OfConst(c) => c.Valid()
      case OfCached(c) => c.Valid()
    }

    /** Element k of the source in flattened (column-major) order. */
    function GetValue(k: nat): (v: T)
      reads Repr()
      requires Valid() && k < Source().rows * Source().cols
      ensures v == Flatten(Source())[k]
    {
      match this
      case OfContinuous(c) => c.GetValue(k)
      case OfConst(c) => FlattenConst(c.source, k); c.GetValue(k)
      case OfCached(c) => c.GetValue(k)
    }
  }

  /** The per-column capability (`IPerColVectorEvaluator`): forwards to the concrete evaluator. */
  datatype PerColEvaluator<T> =
    | OfDense(dense: DensePerColEvaluator<T>)
    | OfConstant(constant: ConstPerColEvaluator<T>)
    | OfCache(cached: CachedPerColEvaluator<T>)
  {
    function Kind(): VectorEvalCost.EvaluatorKind
    {
      match this
      case OfDense(_) => VectorEvalCost.DensePerCol
      case OfConstant(_) => VectorEvalCost.ConstPerCol
      case OfCache(_) => VectorEvalCost.CachedPerCol
    }

    /** The object whose cursor NextColumn moves. */
    ghost function Cursor(): set<object>
    {
      match this
      case OfDense(d) => {d}
      case OfConstant(c) => {c}
      case OfCache(c) => {c}
    }

    ghost function Repr(): set<object>
    {
      Cursor() + (if OfCache? then {cached.cache} else {})
    }

    ghost function Source(): Expr<T>
    {
      match this
      case OfDense(d) => d.source
      case OfConstant(c) => c.source
      case OfCache(c) => c.source
    }

    /** The number of NextColumn calls so far. */
    ghost function Column(): nat
      reads Cursor()
    {
      match this
      case OfDense(d) => d.column
      case OfConstant(c) => c.column
      case OfCache(c) => c.column
    }

    ghost predicate Valid()
      reads Repr()
    {
      match this
      case OfDense(d) => d.Valid()
      case OfConstant(c) => c.Valid()
      case OfCache(c) => c.Valid()
    }

    /** Row i of the current column of the source. */
    function GetValue(i: nat): (v: T)
      reads Repr()
      requires Valid() && i < Source().rows && Column() < Source().cols
      ensures v == Source().Elem(i, Column())
    {
      match this
      case OfDense(d) => d.GetValue(i)
      case OfConstant(c) => c.GetValue(i)
      case OfCache(c) => c.GetValue(i)
    }

    method NextColumn()
      requires Valid()
      modifies Cursor()
      ensures Valid() && Column() == old(Column()) + 1
    {
      match this
      case OfDense(d) => d.NextColumn();
      case OfConstant(c) => c.NextColumn();
      case OfCache(c) => c.NextColumn();
    }
  }
}
