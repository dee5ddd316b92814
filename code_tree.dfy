// The target-language tree the integral generator emits: symbols handed
// out by the backend's symbol table and the statement and expression nodes
// of the backend's language module.  Only the structure is modelled; the
// numeric contents of tables and the text of comments are not.
module CodeTree {

  /** Symbols the backend's symbol table hands out. */
  datatype Symbol =
    | ElementTensor                          // `symbols.element_tensor()`, the output array A
    | WeightsArray(numPoints: nat)           // `symbols.weights_array(num_points)`
    | PointsArray(numPoints: nat)            // `symbols.points_array(num_points)`
    | QuadratureLoopIndex(numPoints: nat)    // `symbols.quadrature_loop_index(num_points)`
    | NumQuadraturePoints(numPoints: nat)    // `symbols.num_quadrature_points(num_points)`
    | ArgumentLoopIndex(axis: nat)           // `symbols.argument_loop_index(i)`
    | IntermediateArray(prefix: string, numPoints: nat)  // `L.Symbol("sp<n>")` or `L.Symbol("sv<n>")`
    | TableName(name: string)                // the name of a precomputed element table

  datatype Expr =
    | Sym(symbol: Symbol)
    | LiteralFloat(value: real)
    | LiteralInt(intValue: int)
    | ArrayAccess(arrayName: Symbol, index: Expr)             // `symbol[index]`
    | FlattenedIndex(indices: seq<Symbol>, shape: seq<nat>) // `L.flattened_indices(indices, shape)`
    | Product(factors: seq<Expr>)                         // `L.Product(factors)`
    | Opaque(term: nat)                                   // an expression produced by the backend

  /** Which comment line is emitted; the text itself is not modelled. */
  datatype CommentKind =
    | QuadratureTablesSection
    | ElementTablesSection
    | TableDimensions
    | ElementTableGroup(numTables: nat, numPoints: nat)
    | ResetElementTensor
    | LoopBodySetup(numPoints: nat)
    | OnlyOnePoint
    | UnstructuredComputations(partition: string)

  datatype Stmt =
    | Comment(kind: CommentKind)
    | ArrayDecl(typename: string, symbol: Symbol, sizes: seq<nat>, alignas: nat)  // values left out
    | Assign(target: Expr, value: Expr)
    | AssignAdd(target: Expr, value: Expr)
    | Memzero(arrayName: Symbol, size: nat)   // the verbatim `memset(A, 0, size * sizeof(*A));`
    | Scope(body: seq<Stmt>)
    | ForRange(index: Symbol, begin: Expr, end: Expr, body: seq<Stmt>)
    | Verbatim(term: nat)                 // a statement produced by the backend

  const StaticConstDouble: string := "static const double"
  const Double: string := "double"

  /**
   * `L.commented_code_list(code, comments)`: the comment lines go in front
   * of the code, and an empty code list stays empty.
   */
  function Commented(code: seq<Stmt>, comments: seq<CommentKind>): (r: seq<Stmt>)
    ensures code == [] ==> r == []
    ensures code != [] ==> |r| == |comments| + |code| && r[|comments|..] == code
    ensures code != [] ==> forall k :: 0 <= k < |comments| ==> r[k] == Comment(comments[k])
  {
    if code == [] then [] else seq(|comments|, k requires 0 <= k < |comments| => Comment(comments[k])) + code
  }
}
