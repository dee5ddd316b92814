// The factorised intermediate representation the integral generator reads
// (the `ir` dictionary and its per-point-count `expr_irs`), and the backend
// plugin it calls.  UFL analysis and the backend's translation functions are
// opaque: the backend is a record of total functions the model never looks
// inside.
module IntegralIR {
  import opened Base
  import opened CodeTree

  /** The two partitions of the expression graph: "piecewise" and "varying". */
  datatype Partition = Piecewise | Varying

  /** The result of `analyse_modified_terminal`, left opaque. */
  datatype ModifiedTerminal = ModifiedTerminal(id: nat)

  /**
   * One vertex of the expression graph `V`.  A modified terminal may be a
   * scalar literal (`_ufl_is_literal_`); an operator has a handler name
   * (`_ufl_handler_name_`), may be a boolean `Condition`, and refers to its
   * operands by their positions in `V`.
   */
  datatype Node =
    | Terminal(terminal: ModifiedTerminal, literal: Option<real>)
    | Operator(handler: string, isCondition: bool, operands: seq<nat>)

  /** Table types of the argument axes; only three of them matter here. */
  datatype TableType = QuadratureTable | OnesTable | ZerosTable | OtherTable(name: string)

  /** An entry of `table_ranges`, passed through to the backend unchanged. */
  type TableRange = (int, int)

  /** A dof block: one (begin, end) range per argument axis. */
  type DofBlock = seq<(int, int)>

  /** One entry `(ma_indices, factor_index, table_ranges, unames, ttypes)` of `block_contributions`. */
  datatype BlockData = BlockData(
    maIndices: seq<nat>,
    factorIndex: nat,
    tableRanges: seq<TableRange>,
    unames: seq<string>,
    ttypes: seq<TableType>)
  {
    /** `rank = len(unames)`. */
    function Rank(): nat { |unames| }

    /** The per-axis lists reach at least to the rank. */
    predicate Valid(numArguments: nat)
    {
      |maIndices| >= Rank() && |tableRanges| >= Rank() && |ttypes| >= Rank()
      && forall i :: 0 <= i < Rank() ==> maIndices[i] < numArguments
    }
  }

  /** `ir["expr_irs"][num_points]`. */
  datatype ExprIR = ExprIR(
    nodes: seq<Node>,                             // "V"
    modifiedArguments: seq<ModifiedTerminal>,     // "modified_arguments"
    piecewiseBlocks: map<DofBlock, seq<BlockData>>, // "block_contributions"["piecewise"]
    varyingBlocks: map<DofBlock, seq<BlockData>>,   // "block_contributions"["varying"]
    piecewise: seq<bool>,                         // "piecewise"
    varying: seq<bool>,                           // "varying"
    tableRanges: seq<TableRange>,                 // "table_ranges"
    uniqueTables: map<string, seq<nat>>,          // "unique_tables": name to table shape
    needWeights: bool,                            // "need_weights"
    needPoints: bool)                             // "need_points"
  {
    function Blocks(p: Partition): map<DofBlock, seq<BlockData>>
    {
      match p
      case Piecewise => piecewiseBlocks
      case Varying => varyingBlocks
    }

    function Flags(p: Partition): seq<bool>
    {
      match p
      case Piecewise => piecewise
      case Varying => varying
    }

    /**
     * The shape invariants the representation builder establishes: one flag
     * and one table range per vertex, and every dof-block contribution refers
     * to existing vertices, arguments and axes.
     */
    predicate Valid()
    {
      |piecewise| == |nodes| && |varying| == |nodes| && |tableRanges| == |nodes|
      && BlocksValid(piecewiseBlocks) && BlocksValid(varyingBlocks)
    }

    predicate BlocksValid(blocks: map<DofBlock, seq<BlockData>>)
    {
      forall dofblock | dofblock in blocks ::
        forall k | 0 <= k < |blocks[dofblock]| ::
          blocks[dofblock][k].Valid(|modifiedArguments|)
          && blocks[dofblock][k].factorIndex < |nodes|
          && |dofblock| >= blocks[dofblock][k].Rank()
    }
  }

  /**
   * `ir["quadrature_rules"][num_points]`: only the sizes of the points and
   * weights arrays are kept.
   */
  datatype QuadratureRule = QuadratureRule(numPointRows: nat, pointDimension: nat, numWeights: nat)

  /** The integral types, `ir["integral_type"]`. */
  datatype IntegralType =
    | Cell | ExteriorFacet | InteriorFacet | Vertex
    | Custom | Cutcell | Interface | Overlap | Expression
  {
    /** The types for which `generate_quadrature_tables` emits nothing. */
    predicate SkipsQuadratureTables()
    {
      Custom? || Cutcell? || Interface? || Overlap? || Vertex?
    }
  }

  /** The integral representation `ir`. */
  datatype IR = IR(
    integralType: IntegralType,
    tensorShape: seq<nat>,
    quadratureRules: map<nat, QuadratureRule>,
    exprIrs: map<nat, ExprIR>,
    alignas: nat)
  {
    predicate Valid()
    {
      forall np | np in exprIrs :: exprIrs[np].Valid()
    }
  }

  /**
   * The backend plugin: `access` and `definitions` for modified terminals,
   * and `ufl_to_language` for operator vertices.
   */
  datatype Backend = Backend(
    access: (ModifiedTerminal, TableRange, nat) -> Expr,
    definitions: (ModifiedTerminal, TableRange, nat, Expr) -> seq<Stmt>,
    translate: (Node, seq<Expr>) -> Expr)

  /** The ways generation fails. */
  datatype GenError =
    | WeightsMismatch(numPoints: nat)    // `assert num_points == len(weights)`
    | MissingExprIR(numPoints: nat)      // KeyError on `ir["expr_irs"][num_points]`
    | NoPoints(numPoints: nat)           // IndexError on `points[0]`
    | PointsMismatch(numPoints: nat)     // `assert points.shape[0] == num_points`
    | MissingAccess(node: nat)           // KeyError on the access memo `vaccesses`
    | ZerosAxis                          // `assert tt not in ("zeros",)`
    | ExpressionNotImplemented           // `error("Expression generation not implemented yet.")`
}
