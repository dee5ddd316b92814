// Functional specification of `IntegralGenerator`
// (ffc/uflacs/generation/integralgenerator.py): what each generator emits,
// as a function of the representation, the backend and the generator's
// state (the access memo `vaccesses` and the set of operator names used).
// The class in integral_generator.dfy is proved to compute these.
module GenerationSpec {
  import opened Base
  import opened Sorting
  import opened CodeTree
  import opened IntegralIR

  // ---------------------------------------------------------------------
  // Sorted key lists (`sorted(d)`).

  // Each returns exactly the elements of its set; the order is stated by the
  // lemmas that follow, so that loops over these lists do not carry it.

  function SortedNumPoints(s: set<nat>): (r: seq<nat>)
    ensures |r| == |s| && forall x :: x in r <==> x in s
  {
    NatLessStrictTotal();
    SortedKeys(s, NatLess)
  }

  function SortedNames(s: set<string>): (r: seq<string>)
    ensures |r| == |s| && forall x :: x in r <==> x in s
  {
    StringLessStrictTotal();
    SortedKeys(s, StringLess)
  }

  function SortedBlocks(s: set<DofBlock>): (r: seq<DofBlock>)
    ensures |r| == |s| && forall x :: x in r <==> x in s
  {
    TupleLessStrictTotal();
    SortedKeys(s, TupleLess)
  }

  lemma SortedNumPointsOrdered(s: set<nat>)
    ensures SortedBy(SortedNumPoints(s), NatLess)
  {
    NatLessStrictTotal();
  }

  lemma SortedNamesOrdered(s: set<string>)
    ensures SortedBy(SortedNames(s), StringLess)
  {
    StringLessStrictTotal();
  }

  lemma SortedBlocksOrdered(s: set<DofBlock>)
    ensures SortedBy(SortedBlocks(s), TupleLess)
  {
    TupleLessStrictTotal();
  }

  /**
   * The positions `i` with `flags[i]` set, in increasing order:
   * `[i for i, p in enumerate(flags) if p]`.
   */
  function Flagged(flags: seq<bool>): (r: seq<nat>)
    ensures forall k :: 0 <= k < |r| ==> r[k] < |flags| && flags[r[k]]
  {
    if flags == [] then []
    else Flagged(flags[..|flags| - 1]) + (if flags[|flags| - 1] then [|flags| - 1] else [])
  }

  /** Every flagged position is listed, and in increasing order. */
  lemma {:induction false} FlaggedOrdered(flags: seq<bool>)
    ensures forall i :: 0 <= i < |flags| && flags[i] ==> i in Flagged(flags)
    ensures forall j, k :: 0 <= j < k < |Flagged(flags)| ==> Flagged(flags)[j] < Flagged(flags)[k]
  {
    if flags != [] {
      var init := flags[..|flags| - 1];
      FlaggedOrdered(init);
      forall i | 0 <= i < |flags| - 1 && flags[i]
        ensures i in Flagged(flags)
      {
        assert init[i];
      }
    }
  }

  // ---------------------------------------------------------------------
  // get_includes

  const CmathNames: set<string> := {
    "abs", "sign", "pow", "sqrt", "exp", "ln", "cos", "sin", "tan",
    "acos", "asin", "atan", "atan_2", "cosh", "sinh", "tanh",
    "acosh", "asinh", "atanh", "erf", "erfc"}

  const BoostMathNames: set<string> := {"bessel_j", "bessel_y", "bessel_i", "bessel_k"}

  const CstringHeader: string := "#include <cstring>"
  const CmathHeader: string := "#include <cmath>"
  const BoostHeader: string := "#include <boost/math/special_functions.hpp>"

  /** The set of include lines `get_includes` collects before sorting. */
  function IncludeSet(names: set<string>): (r: set<string>)
    ensures CstringHeader in r
    ensures CmathHeader in r <==> CmathNames * names != {}
    ensures BoostHeader in r <==> BoostMathNames * names != {}
    ensures forall h :: h in r ==> h == CstringHeader || h == CmathHeader || h == BoostHeader
  {
    {CstringHeader}
    + (if CmathNames * names != {} then {CmathHeader} else {})
    + (if BoostMathNames * names != {} then {BoostHeader} else {})
  }

  // ---------------------------------------------------------------------
  // generate_tensor_reset

  /** `ufl.product`: the product of the entries, 1 for an empty shape. */
  function ShapeProduct(shape: seq<nat>): nat
  {
    if shape == [] then 1 else shape[0] * ShapeProduct(shape[1..])
  }

  /** Whether statement `s` sets entry `k` of the element tensor to zero. */
  predicate Zeroes(s: Stmt, k: int)
  {
    match s
    case Assign(ArrayAccess(ElementTensor, LiteralInt(j)), LiteralFloat(v)) => v == 0.0 && k == j
    case Memzero(ElementTensor, n) => 0 <= k < n
    case _ => false
  }

  /**
   * `generate_tensor_reset`: a comment, then `A[0] = 0.0` for a tensor of
   * one entry or a single memset over all entries otherwise; either way
   * exactly the entries 0 .. size - 1 are zeroed.
   */
  function TensorReset(shape: seq<nat>): (r: seq<Stmt>)
    ensures |r| == 2 && r[0] == Comment(ResetElementTensor)
    ensures ShapeProduct(shape) == 1 ==> r[1] == Assign(ArrayAccess(ElementTensor, LiteralInt(0)), LiteralFloat(0.0))
    ensures ShapeProduct(shape) != 1 ==> r[1] == Memzero(ElementTensor, ShapeProduct(shape))
    ensures forall k :: Zeroes(r[1], k) <==> 0 <= k < ShapeProduct(shape)
  {
    var size := ShapeProduct(shape);
    if size == 1 then
      [Comment(ResetElementTensor), Assign(ArrayAccess(ElementTensor, LiteralInt(0)), LiteralFloat(0.0))]
    else
      [Comment(ResetElementTensor), Memzero(ElementTensor, size)]
  }

  // ---------------------------------------------------------------------
  // The quadrature loop wrapper of generate_quadrature_loops

  /** The value a loop bound denotes, where the model knows it. */
  function BoundValue(e: Expr): Option<int>
  {
    match e
    case LiteralInt(v) => Some(v)
    case Sym(NumQuadraturePoints(n)) => Some(n)
    case _ => None
  }

  /** How many times a scope or a counted loop runs its body. */
  function Trips(s: Stmt): nat
  {
    match s
    case Scope(_) => 1
    case ForRange(_, b, e, _) =>
      if BoundValue(b).Some? && BoundValue(e).Some? && BoundValue(b).value <= BoundValue(e).value
      then (BoundValue(e).value - BoundValue(b).value) as nat
      else 0
    case _ => 0
  }

  /** The body of a scope or a loop. */
  function Body(s: Stmt): seq<Stmt>
  {
    match s
    case Scope(body) => body
    case ForRange(_, _, _, body) => body
    case _ => []
  }

  /**
   * The wrapping at the end of `generate_quadrature_loops`: nothing for an
   * empty body, a commented bare scope for one point, a loop over the
   * points otherwise.  Whenever there is a body it runs once per point.
   */
  function WrapQuadratureLoop(numPoints: nat, body: seq<Stmt>): (r: seq<Stmt>)
    ensures body == [] ==> r == []
    ensures body != [] && numPoints == 1 ==> r == [Comment(OnlyOnePoint), Scope(body)]
    ensures body != [] && numPoints != 1 ==>
              r == [ForRange(QuadratureLoopIndex(numPoints), LiteralInt(0), Sym(NumQuadraturePoints(numPoints)), body)]
    ensures body != [] ==> Body(r[|r| - 1]) == body && Trips(r[|r| - 1]) == numPoints
  {
    if body == [] then []
    else if numPoints == 1 then [Comment(OnlyOnePoint), Scope(body)]
    else [ForRange(QuadratureLoopIndex(numPoints), LiteralInt(0), Sym(NumQuadraturePoints(numPoints)), body)]
  }

  // ---------------------------------------------------------------------
  // generate_partition

  /** The arguments of `generate_partition`, apart from the flags. */
  datatype PartitionContext = PartitionContext(
    backend: Backend,
    symbol: Symbol,
    nodes: seq<Node>,
    tableRanges: seq<TableRange>,
    numPoints: nat)
  {
    predicate Valid() { |tableRanges| >= |nodes| }
  }

  /**
   * The state `generate_partition` builds: terminal definitions, the
   * intermediate assignments, the access memo for this point count, the
   * operator names seen, and the exception raised, if any.
   */
  datatype PartitionState = PartitionState(
    definitions: seq<Stmt>,
    intermediates: seq<Stmt>,
    memo: map<nat, Expr>,
    names: set<string>,
    error: Option<GenError>)

  /** `[vaccesses[op] for op in v.ufl_operands]`: the first operand missing from the memo raises. */
  function OperandAccesses(memo: map<nat, Expr>, ops: seq<nat>): (r: Result<seq<Expr>, GenError>)
    ensures r.Ok? <==> forall k :: 0 <= k < |ops| ==> ops[k] in memo
    ensures r.Ok? ==> |r.value| == |ops| && forall k :: 0 <= k < |ops| ==> r.value[k] == memo[ops[k]]
    ensures r.Err? ==> exists k :: 0 <= k < |ops| && ops[k] !in memo && r.error == MissingAccess(ops[k])
  {
    if ops == [] then Ok([])
    else if ops[0] !in memo then Err(MissingAccess(ops[0]))
    else
      match OperandAccesses(memo, ops[1..])
      case Err(e) => Err(e)
      case Ok(rest) => Ok([memo[ops[0]]] + rest)
  }

  /** The slot expression `symbol[j]`. */
  function Slot(symbol: Symbol, j: nat): Expr
  {
    ArrayAccess(symbol, LiteralInt(j))
  }

  /** One iteration of the loop in `generate_partition`, for vertex `i`. */
  function PartitionStep(ctx: PartitionContext, s: PartitionState, i: nat): PartitionState
    requires ctx.Valid() && i < |ctx.nodes|
  {
    match ctx.nodes[i]
    case Terminal(mt, _) =>
      var access := ctx.backend.access(mt, ctx.tableRanges[i], ctx.numPoints);
      var defs := ctx.backend.definitions(mt, ctx.tableRanges[i], ctx.numPoints, access);
      s.(definitions := s.definitions + defs, memo := s.memo[i := access])
    case Operator(handler, isCondition, ops) =>
      match OperandAccesses(s.memo, ops)
      case Err(e) => s.(error := Some(e))
      case Ok(vops) =>
        var vexpr := ctx.backend.translate(ctx.nodes[i], vops);
        if isCondition then
          s.(memo := s.memo[i := vexpr], names := s.names + {handler})
        else
          var target := Slot(ctx.symbol, |s.intermediates|);
          s.(intermediates := s.intermediates + [Assign(target, vexpr)],
             memo := s.memo[i := target], names := s.names + {handler})
  }

  predicate VisitIn(visit: seq<nat>, n: nat)
  {
    forall k :: 0 <= k < |visit| ==> visit[k] < n
  }

  /** The loop of `generate_partition` over `visit`; it stops at the first exception. */
  function PartitionFold(ctx: PartitionContext, visit: seq<nat>, s0: PartitionState): (r: PartitionState)
    requires ctx.Valid() && VisitIn(visit, |ctx.nodes|)
    ensures s0.error.Some? ==> r == s0
  {
    if visit == [] then s0
    else
      var s := PartitionFold(ctx, visit[..|visit| - 1], s0);
      if s.error.Some? then s else PartitionStep(ctx, s, visit[|visit| - 1])
  }

  /**
   * The statements `generate_partition` returns: the definitions, then
   * (only when there are intermediates) the array declaration and the
   * assignments.
   */
  function PartitionParts(symbol: Symbol, alignas: nat, s: PartitionState): seq<Stmt>
  {
    s.definitions
    + (if |s.intermediates| > 0 then [ArrayDecl(Double, symbol, [|s.intermediates|], alignas)] + s.intermediates else [])
  }

  function PartitionName(p: Partition): string
  {
    match p
    case Piecewise => "piecewise"
    case Varying => "varying"
  }

  function ArrayPrefix(p: Partition): string
  {
    match p
    case Piecewise => "sp"
    case Varying => "sv"
  }

  // ---------------------------------------------------------------------
  // generate_dofblock_partition

  predicate IsLiteralOne(v: Node)
  {
    v.Terminal? && v.literal == Some(1.0)
  }

  /** Axis types that contribute a table access factor. */
  predicate HasTableAccess(tt: TableType)
  {
    tt != QuadratureTable && tt != OnesTable
  }

  /** The axes below `rank` whose table type contributes a factor, in increasing order. */
  function TableAxes(ttypes: seq<TableType>, rank: nat): seq<nat>
    requires rank <= |ttypes|
  {
    Flagged(seq(rank, i requires 0 <= i < rank => HasTableAccess(ttypes[i])))
  }

  /** `self.backend.access(...)` for the modified argument of axis `i`. */
  function ArgumentAccess(b: Backend, e: ExprIR, numPoints: nat, d: BlockData, i: nat): Expr
    requires d.Valid(|e.modifiedArguments|) && i < d.Rank()
  {
    b.access(e.modifiedArguments[d.maIndices[i]], d.tableRanges[i], numPoints)
  }

  /** The table accesses of the axes below `n` that have a table, in axis order. */
  function TableAccesses(b: Backend, e: ExprIR, numPoints: nat, d: BlockData, n: nat): seq<Expr>
    requires d.Valid(|e.modifiedArguments|) && n <= d.Rank()
  {
    if n == 0 then []
    else
      TableAccesses(b, e, numPoints, d, n - 1)
      + (if HasTableAccess(d.ttypes[n - 1]) then [ArgumentAccess(b, e, numPoints, d, n - 1)] else [])
  }

  /**
   * The factors of one contribution: the factor vertex's access unless it
   * is the literal 1.0, then one table access per axis with a table.  The
   * memo lookup raises first; a "zeros" axis fails the assertion.
   */
  function BlockFactors(b: Backend, e: ExprIR, memo: map<nat, Expr>, numPoints: nat, d: BlockData)
    : Result<seq<Expr>, GenError>
    requires d.Valid(|e.modifiedArguments|) && d.factorIndex < |e.nodes|
  {
    var one := IsLiteralOne(e.nodes[d.factorIndex]);
    if !one && d.factorIndex !in memo then Err(MissingAccess(d.factorIndex))
    else if exists i :: 0 <= i < d.Rank() && d.ttypes[i] == ZerosTable then Err(ZerosAxis)
    else Ok((if one then [] else [memo[d.factorIndex]]) + TableAccesses(b, e, numPoints, d, d.Rank()))
  }

  /** `A_indices`: the quadrature loop index on quadrature axes, the argument loop index elsewhere. */
  function AxisIndices(d: BlockData, numPoints: nat): (r: seq<Symbol>)
    requires |d.ttypes| >= d.Rank()
    ensures |r| == d.Rank()
  {
    seq(d.Rank(), i requires 0 <= i < d.Rank() =>
      if d.ttypes[i] == QuadratureTable then QuadratureLoopIndex(numPoints) else ArgumentLoopIndex(i))
  }

  /** `L.Product(factors)`, or the literal 1.0 when every factor was dropped. */
  function Term(factors: seq<Expr>): Expr
  {
    if factors == [] then LiteralFloat(1.0) else Product(factors)
  }

  /**
   * The loop nest around `inner` for the axes from `k` on, outermost first:
   * one loop over the dof range per non-quadrature axis.
   */
  function LoopNest(inner: Stmt, d: BlockData, dofblock: DofBlock, k: nat): Stmt
    requires |d.ttypes| >= d.Rank() && |dofblock| >= d.Rank()
    decreases d.Rank() - k
  {
    if k >= d.Rank() then inner
    else if d.ttypes[k] == QuadratureTable then LoopNest(inner, d, dofblock, k + 1)
    else ForRange(ArgumentLoopIndex(k), LiteralInt(dofblock[k].0), LiteralInt(dofblock[k].1),
                  [LoopNest(inner, d, dofblock, k + 1)])
  }

  /** The accumulation `A[flat_index] += term` of one contribution. */
  function Accumulation(ir: IR, d: BlockData, numPoints: nat, factors: seq<Expr>): Stmt
    requires |d.ttypes| >= d.Rank()
  {
    AssignAdd(ArrayAccess(ElementTensor, FlattenedIndex(AxisIndices(d, numPoints), ir.tensorShape)), Term(factors))
  }

  /** The statement one contribution adds: its accumulation inside its loop nest. */
  function BlockStatement(ir: IR, b: Backend, e: ExprIR, memo: map<nat, Expr>, numPoints: nat,
                          dofblock: DofBlock, d: BlockData): Result<Stmt, GenError>
    requires d.Valid(|e.modifiedArguments|) && d.factorIndex < |e.nodes| && |dofblock| >= d.Rank()
  {
    match BlockFactors(b, e, memo, numPoints, d)
    case Err(err) => Err(err)
    case Ok(factors) => Ok(LoopNest(Accumulation(ir, d, numPoints, factors), d, dofblock, 0))
  }

  predicate ContributionsValid(e: ExprIR, dofblock: DofBlock, ds: seq<BlockData>)
  {
    forall k :: 0 <= k < |ds| ==>
      ds[k].Valid(|e.modifiedArguments|) && ds[k].factorIndex < |e.nodes| && |dofblock| >= ds[k].Rank()
  }

  /** The inner loop of `generate_dofblock_partition` over the contributions of one dof block. */
  function ContributionsFold(ir: IR, b: Backend, e: ExprIR, memo: map<nat, Expr>, numPoints: nat,
                             dofblock: DofBlock, ds: seq<BlockData>): Result<seq<Stmt>, GenError>
    requires ContributionsValid(e, dofblock, ds)
  {
    if ds == [] then Ok([])
    else
      match ContributionsFold(ir, b, e, memo, numPoints, dofblock, ds[..|ds| - 1])
      case Err(err) => Err(err)
      case Ok(parts) =>
        match BlockStatement(ir, b, e, memo, numPoints, dofblock, ds[|ds| - 1])
        case Err(err) => Err(err)
        case Ok(stmt) => Ok(parts + [stmt])
  }

  /** The outer loop of `generate_dofblock_partition` over the dof blocks `keys`. */
  function BlocksFold(ir: IR, b: Backend, e: ExprIR, memo: map<nat, Expr>, numPoints: nat,
                      blocks: map<DofBlock, seq<BlockData>>, keys: seq<DofBlock>): Result<seq<Stmt>, GenError>
    requires e.BlocksValid(blocks)
    requires forall k :: 0 <= k < |keys| ==> keys[k] in blocks
  {
    if keys == [] then Ok([])
    else
      match BlocksFold(ir, b, e, memo, numPoints, blocks, keys[..|keys| - 1])
      case Err(err) => Err(err)
      case Ok(parts) =>
        var dofblock := keys[|keys| - 1];
        match ContributionsFold(ir, b, e, memo, numPoints, dofblock, blocks[dofblock])
        case Err(err) => Err(err)
        case Ok(stmts) => Ok(parts + stmts)
  }

  /** `generate_dofblock_partition(num_points, partition)` with the memo `memo`. */
  function DofBlockPartition(ir: IR, b: Backend, memo: map<nat, Expr>, numPoints: nat, p: Partition)
    : Result<seq<Stmt>, GenError>
    requires numPoints in ir.exprIrs && ir.exprIrs[numPoints].Valid()
  {
    var e := ir.exprIrs[numPoints];
    BlocksFold(ir, b, e, memo, numPoints, e.Blocks(p), SortedBlocks(e.Blocks(p).Keys))
  }

  // ---------------------------------------------------------------------
  // generate_quadrature_tables and generate_element_tables

  /** The weights and points arrays of one quadrature rule, with the checks made on the way. */
  function RuleTables(ir: IR, numPoints: nat): Result<seq<Stmt>, GenError>
    requires numPoints in ir.quadratureRules
  {
    var rule := ir.quadratureRules[numPoints];
    if rule.numWeights != numPoints then Err(WeightsMismatch(numPoints))
    else if numPoints !in ir.exprIrs then Err(MissingExprIR(numPoints))
    else if rule.numPointRows == 0 then Err(NoPoints(numPoints))
    else if rule.numPointRows != numPoints then Err(PointsMismatch(numPoints))
    else
      var e := ir.exprIrs[numPoints];
      Ok((if e.needWeights then [ArrayDecl(StaticConstDouble, WeightsArray(numPoints), [numPoints], ir.alignas)] else [])
         + (if rule.pointDimension > 0 && e.needPoints
            then [ArrayDecl(StaticConstDouble, PointsArray(numPoints), [numPoints * rule.pointDimension], ir.alignas)]
            else []))
  }

  function TablesFold(ir: IR, nps: seq<nat>): Result<seq<Stmt>, GenError>
    requires forall k :: 0 <= k < |nps| ==> nps[k] in ir.quadratureRules
  {
    if nps == [] then Ok([])
    else
      match TablesFold(ir, nps[..|nps| - 1])
      case Err(err) => Err(err)
      case Ok(parts) =>
        match RuleTables(ir, nps[|nps| - 1])
        case Err(err) => Err(err)
        case Ok(decls) => Ok(parts + decls)
  }

  /** `generate_quadrature_tables`. */
  function QuadratureTables(ir: IR): Result<seq<Stmt>, GenError>
  {
    if ir.integralType.SkipsQuadratureTables() then Ok([])
    else
      match TablesFold(ir, SortedNumPoints(ir.quadratureRules.Keys))
      case Err(err) => Err(err)
      case Ok(parts) => Ok(Commented(parts, [QuadratureTablesSection]))
  }

  /** One declaration per table name in `names`, in that order. */
  function TableDecls(alignas: nat, tables: map<string, seq<nat>>, names: seq<string>): seq<Stmt>
    requires forall k :: 0 <= k < |names| ==> names[k] in tables
  {
    if names == [] then []
    else
      var name := names[|names| - 1];
      TableDecls(alignas, tables, names[..|names| - 1]) + [ArrayDecl(StaticConstDouble, TableName(name), tables[name], alignas)]
  }

  /** The element tables of one point count: a comment and the tables in name order, or nothing. */
  function TableGroup(ir: IR, numPoints: nat): seq<Stmt>
    requires numPoints in ir.exprIrs
  {
    var tables := ir.exprIrs[numPoints].uniqueTables;
    if |tables| == 0 then []
    else [Comment(ElementTableGroup(|tables|, numPoints))] + TableDecls(ir.alignas, tables, SortedNames(tables.Keys))
  }

  function ElementTablesFold(ir: IR, nps: seq<nat>): seq<Stmt>
    requires forall k :: 0 <= k < |nps| ==> nps[k] in ir.exprIrs
  {
    if nps == [] then [] else ElementTablesFold(ir, nps[..|nps| - 1]) + TableGroup(ir, nps[|nps| - 1])
  }

  /** `generate_element_tables`. */
  function ElementTables(ir: IR): seq<Stmt>
  {
    Commented(ElementTablesFold(ir, SortedNumPoints(ir.exprIrs.Keys)), [ElementTablesSection, TableDimensions])
  }

  // ---------------------------------------------------------------------
  // generate and its per-point-count parts

  /** The generator's mutable state: `self.vaccesses` and `self._ufl_names`. */
  datatype GenState = GenState(vaccesses: map<nat, map<nat, Expr>>, names: set<string>)

  predicate Ready(ir: IR, st: GenState, numPoints: nat)
  {
    numPoints in ir.exprIrs && ir.exprIrs[numPoints].Valid() && numPoints in st.vaccesses
  }

  function PartitionContextOf(ir: IR, b: Backend, numPoints: nat, p: Partition): PartitionContext
    requires numPoints in ir.exprIrs
  {
    var e := ir.exprIrs[numPoints];
    PartitionContext(b, IntermediateArray(ArrayPrefix(p), numPoints), e.nodes, e.tableRanges, numPoints)
  }

  /**
   * The memo of every point count refers only to vertices of that point
   * count's own expression graph, and there is no memo for an unknown
   * point count.
   */
  predicate MemoWithin(ir: IR, vaccesses: map<nat, map<nat, Expr>>)
  {
    forall np :: np in vaccesses ==>
      np in ir.exprIrs && forall i :: i in vaccesses[np] ==> i < |ir.exprIrs[np].nodes|
  }

  /**
   * Whether or not the fold completes, the memo only gains visited
   * vertices, which are vertices of the graph.
   */
  lemma {:induction false} PartitionMemoGrowsByVisited(ctx: PartitionContext, visit: seq<nat>, s0: PartitionState)
    requires ctx.Valid() && VisitIn(visit, |ctx.nodes|)
    ensures forall i :: i in PartitionFold(ctx, visit, s0).memo ==> i in s0.memo || (i in visit && i < |ctx.nodes|)
  {
    if visit != [] {
      var init := visit[..|visit| - 1];
      PartitionMemoGrowsByVisited(ctx, init, s0);
      forall i | i in PartitionFold(ctx, visit, s0).memo && i !in s0.memo
        ensures i in visit
      {
        if i != visit[|visit| - 1] {
          var k :| 0 <= k < |init| && init[k] == i;
          assert visit[k] == i;
        }
      }
    }
  }

  /** `generate_unstructured_partition(num_points, partition)`. */
  function UnstructuredPartition(ir: IR, b: Backend, st: GenState, numPoints: nat, p: Partition)
    : (r: (Result<seq<Stmt>, GenError>, GenState))
    requires Ready(ir, st, numPoints)
    ensures numPoints in r.1.vaccesses && r.1.vaccesses == st.vaccesses[numPoints := r.1.vaccesses[numPoints]]
    ensures MemoWithin(ir, st.vaccesses) ==> MemoWithin(ir, r.1.vaccesses)
  {
    var ctx := PartitionContextOf(ir, b, numPoints, p);
    var s0 := PartitionState([], [], st.vaccesses[numPoints], st.names, None);
    var s := PartitionFold(ctx, Flagged(ir.exprIrs[numPoints].Flags(p)), s0);
    PartitionMemoGrowsByVisited(ctx, Flagged(ir.exprIrs[numPoints].Flags(p)), s0);
    var st' := GenState(st.vaccesses[numPoints := s.memo], s.names);
    if s.error.Some? then (Err(s.error.value), st')
    else (Ok(Commented(PartitionParts(ctx.symbol, ir.alignas, s), [UnstructuredComputations(PartitionName(p))])), st')
  }

  /** `generate_quadrature_loops(num_points)`. */
  function QuadratureLoops(ir: IR, b: Backend, st: GenState, numPoints: nat)
    : (r: (Result<seq<Stmt>, GenError>, GenState))
    requires Ready(ir, st, numPoints)
    ensures numPoints in r.1.vaccesses && r.1.vaccesses == st.vaccesses[numPoints := r.1.vaccesses[numPoints]]
    ensures MemoWithin(ir, st.vaccesses) ==> MemoWithin(ir, r.1.vaccesses)
  {
    var (setup, st1) := UnstructuredPartition(ir, b, st, numPoints, Varying);
    if setup.Err? then (setup, st1)
    else
      var body := Commented(setup.value, [LoopBodySetup(numPoints)]);
      match DofBlockPartition(ir, b, st1.vaccesses[numPoints], numPoints, Varying)
      case Err(err) => (Err(err), st1)
      case Ok(blocks) => (Ok(WrapQuadratureLoop(numPoints, body + blocks)), st1)
  }

  /** The body `generate` builds for one point count. */
  function PointBody(ir: IR, b: Backend, st: GenState, numPoints: nat)
    : (r: (Result<seq<Stmt>, GenError>, GenState))
    requires Ready(ir, st, numPoints)
    ensures numPoints in r.1.vaccesses && r.1.vaccesses == st.vaccesses[numPoints := r.1.vaccesses[numPoints]]
    ensures MemoWithin(ir, st.vaccesses) ==> MemoWithin(ir, r.1.vaccesses)
  {
    var (piecewise, st1) := UnstructuredPartition(ir, b, st, numPoints, Piecewise);
    if piecewise.Err? then (piecewise, st1)
    else
      match DofBlockPartition(ir, b, st1.vaccesses[numPoints], numPoints, Piecewise)
      case Err(err) => (Err(err), st1)
      case Ok(blocks) =>
        var (loops, st2) := QuadratureLoops(ir, b, st1, numPoints);
        if loops.Err? then (loops, st2)
        else (Ok(piecewise.value + blocks + loops.value), st2)
  }

  /** The loop of `generate` over the point counts `nps`; `wrap` puts each body in a scope. */
  function PointsFold(ir: IR, b: Backend, st: GenState, nps: seq<nat>, wrap: bool)
    : (r: (Result<seq<Stmt>, GenError>, GenState))
    requires forall k :: 0 <= k < |nps| ==>
               nps[k] in ir.exprIrs && ir.exprIrs[nps[k]].Valid() && nps[k] in st.vaccesses
    ensures forall np :: np in r.1.vaccesses <==> np in st.vaccesses
    ensures MemoWithin(ir, st.vaccesses) ==> MemoWithin(ir, r.1.vaccesses)
  {
    if nps == [] then (Ok([]), st)
    else
      var before := PointsFold(ir, b, st, nps[..|nps| - 1], wrap);
      if before.0.Err? then before
      else
        var last := PointBody(ir, b, before.1, nps[|nps| - 1]);
        if last.0.Err? then last
        else (Ok(before.0.value + if wrap then [Scope(last.0.value)] else last.0.value), last.1)
  }

  /** `generate_finishing_statements`. */
  function FinishingStatements(ir: IR): (r: Result<seq<Stmt>, GenError>)
    ensures r.Err? <==> ir.integralType.Expression?
    ensures r.Ok? ==> r.value == []
  {
    if ir.integralType.Expression? then Err(ExpressionNotImplemented) else Ok([])
  }

  /** The memo `generate` starts from: one empty map per point count. */
  function FreshMemo(ir: IR): map<nat, map<nat, Expr>>
  {
    map np | np in ir.exprIrs :: map[]
  }

  /**
   * The loop of `generate` over the point counts in increasing order, each
   * starting from an empty memo; the bodies are wrapped in scopes when
   * there are several point counts.
   */
  function PointBodies(ir: IR, b: Backend, names: set<string>): (r: (Result<seq<Stmt>, GenError>, GenState))
    requires ir.Valid()
    ensures forall np :: np in r.1.vaccesses <==> np in ir.exprIrs
    ensures MemoWithin(ir, r.1.vaccesses)
  {
    var nps := SortedNumPoints(ir.exprIrs.Keys);
    assert MemoWithin(ir, FreshMemo(ir));
    PointsFold(ir, b, GenState(FreshMemo(ir), names), nps, |nps| > 1)
  }

  /** `generate`: the statements, and the generator's state afterwards. */
  function Generate(ir: IR, b: Backend, st: GenState): (Result<seq<Stmt>, GenError>, GenState)
    requires ir.Valid()
  {
    match QuadratureTables(ir)
    case Err(err) => (Err(err), st)
    case Ok(tables) =>
      var prefix := tables + ElementTables(ir) + TensorReset(ir.tensorShape);
      var (bodies, st1) := PointBodies(ir, b, st.names);
      if bodies.Err? then (bodies, st1)
      else
        match FinishingStatements(ir)
        case Err(err) => (Err(err), st1)
        case Ok(finish) => (Ok(prefix + bodies.value + finish), st1)
  }
}
