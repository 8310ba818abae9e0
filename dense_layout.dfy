/**
 * Column-major dense storage and the matrix expressions that the vector
 * evaluation core consumes.  The expression and matrix classes themselves
 * live outside the core; here they are reduced to what the core reads of
 * them: their extents, their storage and leading dimension when they are
 * dense, their value when they are constant, and their element values
 * otherwise.
 */
module DenseLayout {

  /** Offset of element (i, j) in column-major storage with leading dimension `ldim`. */
  function ColumnMajor(i: nat, j: nat, ldim: nat): nat
  {
    i + j * ldim
  }

  lemma MulMono(a: nat, b: nat, c: nat)
    requires a <= b
    ensures a * c <= b * c
  {
  }

  /** Every element of a rows-by-cols block lies at or before its last element. */
  lemma ColumnMajorWithin(i: nat, j: nat, rows: nat, cols: nat, ldim: nat)
    requires i < rows && j < cols
    ensures ColumnMajor(i, j, ldim) <= ColumnMajor(rows - 1, cols - 1, ldim)
  {
    MulMono(j, cols - 1, ldim);
  }

  /** A row index below the leading dimension keeps column j wholly before column j'. */
  lemma ColumnMajorBeforeColumn(i: nat, j: nat, j': nat, ldim: nat)
    requires i < ldim && j < j'
    ensures ColumnMajor(i, j, ldim) < j' * ldim
  {
    MulMono(j + 1, j', ldim);
  }

  /** Offset of the first element of column j: j leading dimensions, counted one column at a time. */
  function ColumnStart(j: nat, ldim: nat): nat
  {
    if j == 0 then 0 else ColumnStart(j - 1, ldim) + ldim
  }

  lemma {:induction false} ColumnStartIsProduct(j: nat, ldim: nat)
    ensures ColumnStart(j, ldim) == j * ldim
  {
    if j > 0 {
      ColumnStartIsProduct(j - 1, ldim);
    }
  }

  /**
   * A matrix expression.
   *  - Dense: directly addressable storage (`ptr_data`, `lead_dim`); element
   *    (i, j) is `data[i + j * ldim]`.
   *  - Const: a `const_matrix`, every element equal to `value`.
   *  - Computed: any other expression; its elements are computed per access.
   */
  datatype Expr<T> =
    | Dense(data: seq<T>, rows: nat, cols: nat, ldim: nat)
    | Const(value: T, rows: nat, cols: nat)
    | Computed(elem: (nat, nat) -> T, rows: nat, cols: nat)
  {
    /** A dense matrix's leading dimension is at least its row count and its storage holds every element. */
    predicate Valid()
    {
      Dense? ==> rows <= ldim && (rows == 0 || cols == 0 || ColumnMajor(rows - 1, cols - 1, ldim) < |data|)
    }

    /**
     * Continuous layout: the storage holds the elements end to end, column
     * after column.  A dense matrix of at most one column has it whatever its
     * leading dimension.
     */
    predicate HasContinuousLayout()
    {
      Dense? && (cols <= 1 || ldim == rows)
    }

    /** The logical element at row i, column j. */
    function Elem(i: nat, j: nat): T
      requires Valid() && i < rows && j < cols
    {
      match this
      case Dense(data, _, _, ldim) =>
        ColumnMajorWithin(i, j, rows, cols, ldim);
        data[ColumnMajor(i, j, ldim)]
      case Const(value, _, _) => value
      case Computed(elem, _, _) => elem(i, j)
    }
  }

  /** Column j of an expression, top to bottom. */
  function ColumnOf<T>(x: Expr<T>, j: nat): seq<T>
    requires x.Valid() && j < x.cols
  {
    seq(x.rows, i requires 0 <= i < x.rows => x.Elem(i, j))
  }

  /** The first n columns of an expression, laid end to end. */
  function FlattenColumns<T>(x: Expr<T>, n: nat): (s: seq<T>)
    requires x.Valid() && n <= x.cols
    ensures |s| == n * x.rows
  {
    if n == 0 then [] else FlattenColumns(x, n - 1) + ColumnOf(x, n - 1)
  }

  /** The elements of an expression in column-major (flattened) order. */
  function Flatten<T>(x: Expr<T>): (s: seq<T>)
    requires x.Valid()
    ensures |s| == x.rows * x.cols
  {
    FlattenColumns(x, x.cols)
  }

  lemma {:induction false} FlattenColumnsAt<T>(x: Expr<T>, n: nat, i: nat, j: nat)
    requires x.Valid() && n <= x.cols && i < x.rows && j < n
    ensures ColumnMajor(i, j, x.rows) < |FlattenColumns(x, n)|
    ensures FlattenColumns(x, n)[ColumnMajor(i, j, x.rows)] == x.Elem(i, j)
  {
    if j < n - 1 {
      FlattenColumnsAt(x, n - 1, i, j);
      ColumnMajorBeforeColumn(i, j, n - 1, x.rows);
    }
  }

  /** Flattened position i + j * rows holds element (i, j): flattening is column-major. */
  lemma FlattenAt<T>(x: Expr<T>, i: nat, j: nat)
    requires x.Valid() && i < x.rows && j < x.cols
    ensures ColumnMajor(i, j, x.rows) < |Flatten(x)|
    ensures Flatten(x)[ColumnMajor(i, j, x.rows)] == x.Elem(i, j)
  {
    FlattenColumnsAt(x, x.cols, i, j);
  }

  lemma {:induction false} FlattenColumnsContinuous<T>(x: Expr<T>, n: nat)
    requires x.Valid() && x.Dense? && x.ldim == x.rows && n <= x.cols
    ensures n * x.rows <= |x.data|
    ensures FlattenColumns(x, n) == x.data[..n * x.rows]
  {
    if n > 0 {
      FlattenColumnsContinuous(x, n - 1);
      var r := x.rows;
      if r > 0 {
        ColumnMajorWithin(r - 1, n - 1, r, x.cols, r);
      }
      var column := x.data[(n - 1) * r .. n * r];
      forall i | 0 <= i < r
        ensures ColumnOf(x, n - 1)[i] == column[i]
      {
      }
      assert x.data[..n * r] == x.data[..(n - 1) * r] + column;
    }
  }

  /** The storage of a dense matrix with continuous layout is its flattened form. */
  lemma FlattenContinuous<T>(x: Expr<T>)
    requires x.Valid() && x.HasContinuousLayout()
    ensures x.rows * x.cols <= |x.data|
    ensures Flatten(x) == x.data[..x.rows * x.cols]
  {
    if x.ldim == x.rows {
      FlattenColumnsContinuous(x, x.cols);
    } else if x.cols == 1 {
      if x.rows > 0 {
        ColumnMajorWithin(x.rows - 1, 0, x.rows, 1, x.ldim);
      }
      assert Flatten(x) == ColumnOf(x, 0);
      forall i | 0 <= i < x.rows
        ensures ColumnOf(x, 0)[i] == x.data[i]
      {
        assert ColumnMajor(i, 0, x.ldim) == i;
      }
    }
  }

  lemma {:induction false} FlattenColumnsConst<T>(x: Expr<T>, n: nat, k: nat)
    requires x.Valid() && x.Const? && n <= x.cols && k < n * x.rows
    ensures FlattenColumns(x, n)[k] == x.value
  {
    if k < (n - 1) * x.rows {
      FlattenColumnsConst(x, n - 1, k);
    }
  }

  /** Every element of a flattened constant matrix is its value. */
  lemma FlattenConst<T>(x: Expr<T>, k: nat)
    requires x.Valid() && x.Const? && k < x.rows * x.cols
    ensures Flatten(x)[k] == x.value
  {
    FlattenColumnsConst(x, x.cols, k);
  }

  /** The shape of a destination matrix: `nrows()`, `ncolumns()`, `lead_dim()`. */
  datatype Shape = Shape(rows: nat, cols: nat, ldim: nat)
  {
    /** `nelems()` */
    function Nelems(): nat
    {
      rows * cols
    }

    /** A dense destination whose every element lies inside storage of the given length. */
    predicate FitsIn(length: nat)
    {
      rows <= ldim && (rows == 0 || cols == 0 || ColumnMajor(rows - 1, cols - 1, ldim) < length)
    }
  }
}
