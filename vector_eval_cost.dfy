/**
 * Cost model, evaluator map and default organisation policy of the vector
 * evaluation core.  In the source these are compile-time constants computed
 * from an expression type; here the type is described by an `ExprInfo`.
 */
module VectorEvalCost {

  datatype Option<T> = None | Some(value: T)

  /** Iteration organisation: `as_linear_vec` or `per_column`. */
  datatype Org = Linear | PerColumn

  /** Means of evaluation.  Only `by_scalars` is implemented; `by_simd` is declared and never defined. */
  datatype Means = ByScalars

  /** `vector_eval_policy<Org, Means>` */
  datatype Policy = Policy(org: Org, means: Means)

  /**
   * What the core reads of an expression type: `is_dense_mat`,
   * `ct_has_continuous_layout`, whether it is a `const_matrix`, and the raw
   * value of `ct_rows` (which is the value of `DynamicDim` when the row count
   * is only known at run time).
   */
  datatype ExprInfo = ExprInfo(isDense: bool, isContinuous: bool, isConst: bool, ctRows: int)

  /** The six evaluator classes. */
  datatype EvaluatorKind =
    | ContinuousLinear | DensePerCol | ConstLinear | ConstPerCol | CachedLinear | CachedPerCol
  {
    /** The organisation whose capability the evaluator implements. */
    function OrgOf(): Org
    {
      if ContinuousLinear? || ConstLinear? || CachedLinear? then Linear else PerColumn
    }

    predicate IsCached()
    {
      CachedLinear? || CachedPerCol?
    }
  }

  const CacheCost: int := 1000
  const ShortVecLengthThreshold: int := 4
  const ShortVecPerColCost: int := 200

  /** `generic_vector_eval::can_direct`: the source can be read in place under this organisation. */
  predicate CanDirect(e: ExprInfo, org: Org)
  {
    match org
    case Linear => e.isDense && e.isContinuous
    case PerColumn => e.isDense
  }

  /** `has_short_col`: compares the raw compile-time row count with the threshold. */
  predicate HasShortCol(e: ExprInfo)
  {
    e.ctRows < ShortVecLengthThreshold
  }

  /** `normal_cost` (and the linear `cost`) of `generic_vector_eval`. */
  function NormalCost(e: ExprInfo, org: Org): int
  {
    if CanDirect(e, org) then 0 else CacheCost
  }

  /** `generic_vector_eval<Expr, Org, by_scalars>::cost` */
  function GenericCost(e: ExprInfo, org: Org): (c: int)
    ensures org == Linear ==> (c == 0 <==> e.isDense && e.isContinuous)
    ensures org == Linear ==> (c == 0 || c == CacheCost)
    ensures org == PerColumn ==>
      c == (if e.isDense then 0 else CacheCost) + (if e.ctRows < ShortVecLengthThreshold then ShortVecPerColCost else 0)
  {
    match org
    case Linear => NormalCost(e, Linear)
    case PerColumn =>
      var normal := NormalCost(e, PerColumn);
      var shortv := ShortVecPerColCost + normal;
      if HasShortCol(e) then shortv else normal
  }

  /** `generic_vector_eval<Expr, Org, by_scalars>::evaluator_type` */
  function GenericKind(e: ExprInfo, org: Org): (k: EvaluatorKind)
    ensures k.OrgOf() == org && !k.ConstLinear? && !k.ConstPerCol?
    ensures k.IsCached() <==> !CanDirect(e, org)
  {
    match org
    case Linear => if CanDirect(e, Linear) then ContinuousLinear else CachedLinear
    case PerColumn => if CanDirect(e, PerColumn) then DensePerCol else CachedPerCol
  }

  /**
   * `vector_eval<Expr, Org, by_scalars>::cost`.  For a non-constant expression
   * under per-column organisation the source declares no `cost` member (see
   * DeclaredCost); this model reads `generic_vector_eval::cost` there.
   */
  function Cost(e: ExprInfo, org: Org): (c: int)
    ensures c >= 0
    ensures e.isConst ==> c == 0
    ensures c >= CacheCost <==> !e.isConst && !CanDirect(e, org)
  {
    if e.isConst then 0 else GenericCost(e, org)
  }

  /** `vector_eval<Expr, Org, by_scalars>::evaluator_type` */
  function EvaluatorFor(e: ExprInfo, org: Org): (k: EvaluatorKind)
    ensures k.OrgOf() == org
    ensures e.isConst <==> k.ConstLinear? || k.ConstPerCol?
    ensures k.IsCached() <==> Cost(e, org) >= CacheCost
  {
    if !e.isConst then GenericKind(e, org)
    else match org
      case Linear => ConstLinear
      case PerColumn => ConstPerCol
  }

  /** `vector_eval_default_policy<Expr>::org` */
  function ChooseOrg(e: ExprInfo): (org: Org)
    ensures org == PerColumn <==> !e.isConst && e.isDense && !e.isContinuous
    ensures forall o :: Cost(e, org) <= Cost(e, o)
  {
    var linearCost := Cost(e, Linear);
    var percolCost := Cost(e, PerColumn);
    if linearCost <= percolCost then Linear else PerColumn
  }

  /** `vector_eval_default_policy<Expr>::type` */
  function DefaultPolicy(e: ExprInfo): (p: Policy)
    ensures p.means == ByScalars
    ensures p.org == Linear <==> Cost(e, Linear) <= Cost(e, PerColumn)
  {
    Policy(ChooseOrg(e), ByScalars)
  }

  // ---- properties of the cost model ----

  /** A non-constant expression is read in place linearly exactly when it is dense and continuous; otherwise it is cached at CacheCost. */
  lemma LinearCostAndKind(e: ExprInfo)
    requires !e.isConst
    ensures Cost(e, Linear) == (if e.isDense && e.isContinuous then 0 else CacheCost)
    ensures EvaluatorFor(e, Linear) == (if e.isDense && e.isContinuous then ContinuousLinear else CachedLinear)
  {
  }

  /** The per-column cost is the normal cost plus the short-column penalty below the threshold; the penalty never changes the evaluator. */
  lemma PerColCostAndKind(e: ExprInfo, rows: int)
    requires !e.isConst
    ensures Cost(e, PerColumn) == NormalCost(e, PerColumn) + (if e.ctRows < ShortVecLengthThreshold then ShortVecPerColCost else 0)
    ensures EvaluatorFor(e, PerColumn) == (if e.isDense then DensePerCol else CachedPerCol)
    ensures EvaluatorFor(e.(ctRows := rows), PerColumn) == EvaluatorFor(e, PerColumn)
    ensures EvaluatorFor(e.(isContinuous := !e.isContinuous), PerColumn) == EvaluatorFor(e, PerColumn)
  {
  }

  /** Ties go to linear: a dense, continuous, short-column expression is always evaluated linearly, and its per-column cost is strictly larger. */
  lemma ShortContinuousChoosesLinear(e: ExprInfo)
    requires !e.isConst && e.isDense && e.isContinuous && HasShortCol(e)
    ensures Cost(e, PerColumn) > Cost(e, Linear)
    ensures ChooseOrg(e) == Linear
    ensures EvaluatorFor(e, ChooseOrg(e)) == ContinuousLinear
  {
  }

  /** A strided dense expression goes per column, directly, with or without the short-column penalty. */
  lemma StridedChoosesDensePerCol(e: ExprInfo)
    requires !e.isConst && e.isDense && !e.isContinuous
    ensures ChooseOrg(e) == PerColumn
    ensures EvaluatorFor(e, ChooseOrg(e)) == DensePerCol
    ensures Cost(e, PerColumn) == (if HasShortCol(e) then ShortVecPerColCost else 0)
  {
  }

  /** A non-dense expression is cached under either organisation; both cost the same when columns are long, so linear wins the tie. */
  lemma NonDenseChoosesCachedLinear(e: ExprInfo)
    requires !e.isConst && !e.isDense
    ensures ChooseOrg(e) == Linear
    ensures EvaluatorFor(e, ChooseOrg(e)) == CachedLinear
    ensures !HasShortCol(e) ==> Cost(e, Linear) == Cost(e, PerColumn)
  {
  }

  /** A `const_matrix` costs nothing under either organisation and is never cached. */
  lemma ConstNeverCached(e: ExprInfo, org: Org)
    requires e.isConst
    ensures Cost(e, org) == 0
    ensures EvaluatorFor(e, org) == (if org == Linear then ConstLinear else ConstPerCol)
    ensures !EvaluatorFor(e, org).IsCached()
    ensures ChooseOrg(e) == Linear
  {
  }

  // ---- the `cost` members as the source declares them ----

  /**
   * The `cost` member of `vector_eval<Expr, Org, by_scalars>` as declared:
   * the generic per-column specialisation exposes only `normal_cost` and
   * `shortv_cost`, so for a non-constant expression there is no per-column
   * `cost` for the default policy to read.
   */
  function DeclaredCost(e: ExprInfo, org: Org): (c: Option<int>)
    ensures c.None? <==> org == PerColumn && !e.isConst
    ensures c.Some? ==> c.value == Cost(e, org)
  {
    match org
    case Linear => Some(if e.isConst then 0 else GenericCost(e, Linear))
    case PerColumn => if e.isConst then Some(0) else None
  }

  /** For every non-constant expression the default policy's `percol_cost` names a member that does not exist. */
  lemma DeclaredPerColCostMissing(e: ExprInfo)
    requires !e.isConst
    ensures DeclaredCost(e, PerColumn) == None
    ensures DeclaredCost(e, Linear) == Some(Cost(e, Linear))
  {
  }
}
