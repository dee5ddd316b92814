// `IntegralGenerator` (ffc/uflacs/generation/integralgenerator.py): the
// driver that turns the factorised representation into the statement list
// of a `tabulate_tensor` body.  Its methods grow statement lists in loops and
// update the generator's two pieces of state, the access memo `vaccesses`
// and the set `_ufl_names`; each is proved to compute the corresponding
// function of GenerationSpec.
module IntegralGeneration {
  import opened Base
  import opened Sorting
  import opened CodeTree
  import opened IntegralIR
  import opened GenerationSpec

  // ---------------------------------------------------------------------
  // Once one of the left folds of GenerationSpec fails, it stays failed:
  // this is what lets the methods return at the first exception.

  lemma {:induction false} TablesFoldStaysFailed(ir: IR, nps: seq<nat>, k: nat)
    requires forall j :: 0 <= j < |nps| ==> nps[j] in ir.quadratureRules
    requires k <= |nps| && TablesFold(ir, nps[..k]).Err?
    ensures TablesFold(ir, nps) == TablesFold(ir, nps[..k])
  {
    if k < |nps| {
      var init := nps[..|nps| - 1];
      assert init[..k] == nps[..k];
      TablesFoldStaysFailed(ir, init, k);
    } else {
      assert nps[..k] == nps;
    }
  }

  lemma {:induction false} PartitionFoldStaysFailed(ctx: PartitionContext, visit: seq<nat>, s0: PartitionState, k: nat)
    requires ctx.Valid() && VisitIn(visit, |ctx.nodes|)
    requires k <= |visit| && PartitionFold(ctx, visit[..k], s0).error.Some?
    ensures PartitionFold(ctx, visit, s0) == PartitionFold(ctx, visit[..k], s0)
  {
    if k < |visit| {
      var init := visit[..|visit| - 1];
      assert init[..k] == visit[..k];
      PartitionFoldStaysFailed(ctx, init, s0, k);
    } else {
      assert visit[..k] == visit;
    }
  }

  lemma {:induction false} ContributionsFoldStaysFailed(ir: IR, b: Backend, e: ExprIR, memo: map<nat, Expr>,
                                                        numPoints: nat, dofblock: DofBlock, ds: seq<BlockData>, k: nat)
    requires ContributionsValid(e, dofblock, ds)
    requires k <= |ds| && ContributionsFold(ir, b, e, memo, numPoints, dofblock, ds[..k]).Err?
    ensures ContributionsFold(ir, b, e, memo, numPoints, dofblock, ds)
            == ContributionsFold(ir, b, e, memo, numPoints, dofblock, ds[..k])
  {
    if k < |ds| {
      var init := ds[..|ds| - 1];
      assert init[..k] == ds[..k];
      ContributionsFoldStaysFailed(ir, b, e, memo, numPoints, dofblock, init, k);
    } else {
      assert ds[..k] == ds;
    }
  }

  lemma {:induction false} BlocksFoldStaysFailed(ir: IR, b: Backend, e: ExprIR, memo: map<nat, Expr>, numPoints: nat,
                                                 blocks: map<DofBlock, seq<BlockData>>, keys: seq<DofBlock>, k: nat)
    requires e.BlocksValid(blocks)
    requires forall j :: 0 <= j < |keys| ==> keys[j] in blocks
    requires k <= |keys| && BlocksFold(ir, b, e, memo, numPoints, blocks, keys[..k]).Err?
    ensures BlocksFold(ir, b, e, memo, numPoints, blocks, keys) == BlocksFold(ir, b, e, memo, numPoints, blocks, keys[..k])
  {
    if k < |keys| {
      var init := keys[..|keys| - 1];
      assert init[..k] == keys[..k];
      BlocksFoldStaysFailed(ir, b, e, memo, numPoints, blocks, init, k);
    } else {
      assert keys[..k] == keys;
    }
  }

  lemma {:induction false} PointsFoldStaysFailed(ir: IR, b: Backend, st: GenState, nps: seq<nat>, wrap: bool, k: nat)
    requires forall j :: 0 <= j < |nps| ==>
               nps[j] in ir.exprIrs && ir.exprIrs[nps[j]].Valid() && nps[j] in st.vaccesses
    requires k <= |nps| && PointsFold(ir, b, st, nps[..k], wrap).0.Err?
    ensures PointsFold(ir, b, st, nps, wrap) == PointsFold(ir, b, st, nps[..k], wrap)
  {
    if k < |nps| {
      var init := nps[..|nps| - 1];
      assert init[..k] == nps[..k];
      PointsFoldStaysFailed(ir, b, st, init, wrap, k);
    } else {
      assert nps[..k] == nps;
    }
  }

  // ---------------------------------------------------------------------
  // The two inner loops of generate_dofblock_partition.

  /**
   * The factors of one contribution, built as the source builds them: the
   * factor vertex's access unless it is the literal 1.0, then one table
   * access per axis in axis order, failing at the first "zeros" axis.
   */
  method BuildFactors(b: Backend, e: ExprIR, memo: map<nat, Expr>, numPoints: nat, d: BlockData)
    returns (r: Result<seq<Expr>, GenError>)
    requires d.Valid(|e.modifiedArguments|) && d.factorIndex < |e.nodes|
    ensures r == BlockFactors(b, e, memo, numPoints, d)
  {
    var factors: seq<Expr> := [];
    var v := e.nodes[d.factorIndex];
    if !IsLiteralOne(v) {
      if d.factorIndex !in memo {
        return Err(MissingAccess(d.factorIndex));
      }
      factors := [memo[d.factorIndex]];
    }
    ghost var head := factors;
    for i := 0 to d.Rank()
      invariant forall j :: 0 <= j < i ==> d.ttypes[j] != ZerosTable
      invariant factors == head + TableAccesses(b, e, numPoints, d, i)
    {
      if d.ttypes[i] == ZerosTable {
        return Err(ZerosAxis);
      }
      if HasTableAccess(d.ttypes[i]) {
        factors := factors + [ArgumentAccess(b, e, numPoints, d, i)];
      }
    }
    return Ok(factors);
  }

  /**
   * The loop nest around `inner`, built innermost first as the source does,
   * by a loop from the last axis down to axis 0.
   */
  method WrapLoopNest(inner: Stmt, d: BlockData, dofblock: DofBlock) returns (body: Stmt)
    requires |d.ttypes| >= d.Rank() && |dofblock| >= d.Rank()
    ensures body == LoopNest(inner, d, dofblock, 0)
  {
    body := inner;
    var i := d.Rank();
    while i > 0
      invariant 0 <= i <= d.Rank()
      invariant body == LoopNest(inner, d, dofblock, i)
    {
      i := i - 1;
      if d.ttypes[i] != QuadratureTable {
        body := ForRange(ArgumentLoopIndex(i), LiteralInt(dofblock[i].0), LiteralInt(dofblock[i].1), [body]);
      }
    }
  }

  /** `A_indices`, built axis by axis. */
  method BuildAxisIndices(d: BlockData, numPoints: nat) returns (indices: seq<Symbol>)
    requires |d.ttypes| >= d.Rank()
    ensures indices == AxisIndices(d, numPoints)
  {
    indices := [];
    for i := 0 to d.Rank()
      invariant |indices| == i
      invariant forall j :: 0 <= j < i ==> indices[j] == AxisIndices(d, numPoints)[j]
    {
      var ia := if d.ttypes[i] == QuadratureTable then QuadratureLoopIndex(numPoints) else ArgumentLoopIndex(i);
      indices := indices + [ia];
    }
  }

  /** The statement of one contribution: its accumulation inside its loop nest. */
  method BuildBlockStatement(ir: IR, b: Backend, e: ExprIR, memo: map<nat, Expr>, numPoints: nat,
                             dofblock: DofBlock, d: BlockData) returns (r: Result<Stmt, GenError>)
    requires d.Valid(|e.modifiedArguments|) && d.factorIndex < |e.nodes| && |dofblock| >= d.Rank()
    ensures r == BlockStatement(ir, b, e, memo, numPoints, dofblock, d)
  {
    var factors := BuildFactors(b, e, memo, numPoints, d);
    if factors.Err? {
      return Err(factors.error);
    }
    var aIndices := BuildAxisIndices(d, numPoints);
    var term := if factors.value == [] then LiteralFloat(1.0) else Product(factors.value);
    var body := AssignAdd(ArrayAccess(ElementTensor, FlattenedIndex(aIndices, ir.tensorShape)), term);
    body := WrapLoopNest(body, d, dofblock);
    return Ok(body);
  }

  /** The inner loop of `generate_dofblock_partition`, over the contributions to one dof block. */
  method BuildContributions(ir: IR, b: Backend, e: ExprIR, memo: map<nat, Expr>, numPoints: nat,
                            dofblock: DofBlock, ds: seq<BlockData>) returns (r: Result<seq<Stmt>, GenError>)
    requires ContributionsValid(e, dofblock, ds)
    ensures r == ContributionsFold(ir, b, e, memo, numPoints, dofblock, ds)
  {
    var parts: seq<Stmt> := [];
    for c := 0 to |ds|
      invariant ContributionsFold(ir, b, e, memo, numPoints, dofblock, ds[..c]) == Ok(parts)
    {
      assert ds[..c + 1][..c] == ds[..c];
      var stmt := BuildBlockStatement(ir, b, e, memo, numPoints, dofblock, ds[c]);
      if stmt.Err? {
        ContributionsFoldStaysFailed(ir, b, e, memo, numPoints, dofblock, ds, c + 1);
        return Err(stmt.error);
      }
      parts := parts + [stmt.value];
    }
    assert ds[..|ds|] == ds;
    return Ok(parts);
  }

  /** The outer loop of `generate_dofblock_partition`, over the dof blocks `keys`. */
  method BuildBlocks(ir: IR, b: Backend, e: ExprIR, memo: map<nat, Expr>, numPoints: nat,
                     blocks: map<DofBlock, seq<BlockData>>, keys: seq<DofBlock>) returns (r: Result<seq<Stmt>, GenError>)
    requires e.BlocksValid(blocks)
    requires forall k :: 0 <= k < |keys| ==> keys[k] in blocks
    ensures r == BlocksFold(ir, b, e, memo, numPoints, blocks, keys)
  {
    var parts: seq<Stmt> := [];
    for k := 0 to |keys|
      invariant BlocksFold(ir, b, e, memo, numPoints, blocks, keys[..k]) == Ok(parts)
    {
      assert keys[..k + 1][..k] == keys[..k];
      var stmts := BuildContributions(ir, b, e, memo, numPoints, keys[k], blocks[keys[k]]);
      if stmts.Err? {
        BlocksFoldStaysFailed(ir, b, e, memo, numPoints, blocks, keys, k + 1);
        return Err(stmts.error);
      }
      parts := parts + stmts.value;
    }
    assert keys[..|keys|] == keys;
    return Ok(parts);
  }

  class IntegralGenerator {
    const ir: IR
    const backend: Backend
    /** `self._ufl_names`: the operator names code was generated for. */
    var uflNames: set<string>
    /** `self.vaccesses`: per point count, the access expression of each visited vertex. */
    var vaccesses: map<nat, map<nat, Expr>>

    constructor (ir: IR, backend: Backend)
      ensures this.ir == ir && this.backend == backend
      ensures uflNames == {} && vaccesses == map[]
    {
      this.ir := ir;
      this.backend := backend;
      uflNames := {};
      vaccesses := map[];
    }

    /**
     * `get_includes`: always the cstring header, the cmath header exactly
     * when a cmath function was used, the boost header exactly when a
     * Bessel function was used, and nothing else, in sorted order.
     */
    function GetIncludes(): (r: seq<string>)
      reads this
      ensures CstringHeader in r
      ensures CmathHeader in r <==> CmathNames * uflNames != {}
      ensures BoostHeader in r <==> BoostMathNames * uflNames != {}
      ensures forall h :: h in r ==> h == CstringHeader || h == CmathHeader || h == BoostHeader
      ensures SortedBy(r, StringLess)
    {
      SortedNamesOrdered(IncludeSet(uflNames));
      SortedNames(IncludeSet(uflNames))
    }

    /** The weights and points declarations of one quadrature rule, with the checks made on the way. */
    method GenerateRuleTables(np: nat) returns (r: Result<seq<Stmt>, GenError>)
      requires np in ir.quadratureRules
      ensures r == RuleTables(ir, np)
    {
      var rule := ir.quadratureRules[np];
      if rule.numWeights != np {
        return Err(WeightsMismatch(np));
      }
      if np !in ir.exprIrs {
        return Err(MissingExprIR(np));
      }
      var exprIr := ir.exprIrs[np];
      var weights: seq<Stmt> := [];
      if exprIr.needWeights {
        weights := [ArrayDecl(StaticConstDouble, WeightsArray(np), [np], ir.alignas)];
      }
      if rule.numPointRows == 0 {
        return Err(NoPoints(np));
      }
      var pdim := rule.pointDimension;
      if rule.numPointRows != np {
        return Err(PointsMismatch(np));
      }
      var points: seq<Stmt> := [];
      if pdim > 0 && exprIr.needPoints {
        points := [ArrayDecl(StaticConstDouble, PointsArray(np), [np * pdim], ir.alignas)];
      }
      return Ok(weights + points);
    }

    /** The loop of `generate_quadrature_tables` over the point counts `nps`, stopping at the first failed check. */
    method GenerateRulesTables(nps: seq<nat>) returns (r: Result<seq<Stmt>, GenError>)
      requires forall k :: 0 <= k < |nps| ==> nps[k] in ir.quadratureRules
      ensures r == TablesFold(ir, nps)
    {
      var parts: seq<Stmt> := [];
      for k := 0 to |nps|
        invariant TablesFold(ir, nps[..k]) == Ok(parts)
      {
        assert nps[..k + 1][..k] == nps[..k];
        var decls := GenerateRuleTables(nps[k]);
        if decls.Err? {
          TablesFoldStaysFailed(ir, nps, k + 1);
          return Err(decls.error);
        }
        parts := parts + decls.value;
      }
      assert nps[..|nps|] == nps;
      return Ok(parts);
    }

    /** `generate_quadrature_tables`. */
    method GenerateQuadratureTables() returns (r: Result<seq<Stmt>, GenError>)
      ensures r == QuadratureTables(ir)
    {
      if ir.integralType.SkipsQuadratureTables() {
        return Ok([]);
      }
      var parts := GenerateRulesTables(SortedNumPoints(ir.quadratureRules.Keys));
      if parts.Err? {
        return parts;
      }
      return Ok(Commented(parts.value, [QuadratureTablesSection]));
    }

    /** One declaration per table name in `names`, in that order. */
    method GenerateTableDecls(tables: map<string, seq<nat>>, names: seq<string>) returns (r: seq<Stmt>)
      requires forall k :: 0 <= k < |names| ==> names[k] in tables
      ensures r == TableDecls(ir.alignas, tables, names)
    {
      r := [];
      for j := 0 to |names|
        invariant r == TableDecls(ir.alignas, tables, names[..j])
      {
        assert names[..j + 1][..j] == names[..j];
        r := r + [ArrayDecl(StaticConstDouble, TableName(names[j]), tables[names[j]], ir.alignas)];
      }
      assert names[..|names|] == names;
    }

    /** The element tables of one point count: a comment, then one declaration per table in name order. */
    method GenerateTableGroup(np: nat) returns (r: seq<Stmt>)
      requires np in ir.exprIrs
      ensures r == TableGroup(ir, np)
    {
      var tables := ir.exprIrs[np].uniqueTables;
      r := [];
      if |tables| > 0 {
        var decls := GenerateTableDecls(tables, SortedNames(tables.Keys));
        r := [Comment(ElementTableGroup(|tables|, np))] + decls;
      }
    }

    /** The loop of `generate_element_tables` over the point counts `nps`. */
    method GenerateElementTablesFold(nps: seq<nat>) returns (parts: seq<Stmt>)
      requires forall k :: 0 <= k < |nps| ==> nps[k] in ir.exprIrs
      ensures parts == ElementTablesFold(ir, nps)
    {
      parts := [];
      for k := 0 to |nps|
        invariant parts == ElementTablesFold(ir, nps[..k])
      {
        assert nps[..k + 1][..k] == nps[..k];
        var group := GenerateTableGroup(nps[k]);
        parts := parts + group;
      }
      assert nps[..|nps|] == nps;
    }

    /** `generate_element_tables`. */
    method GenerateElementTables() returns (r: seq<Stmt>)
      ensures r == ElementTables(ir)
    {
      var parts := GenerateElementTablesFold(SortedNumPoints(ir.exprIrs.Keys));
      r := Commented(parts, [ElementTablesSection, TableDimensions]);
    }

    /**
     * One iteration of the loop in `generate_partition`: visit vertex `i`,
     * extend the definitions or the intermediates, and record its access
     * in the memo of this point count, or report the missing operand.
     */
    method VisitVertex(symbol: Symbol, nodes: seq<Node>, tableRanges: seq<TableRange>, numPoints: nat, i: nat,
                       definitions: seq<Stmt>, intermediates: seq<Stmt>)
      returns (definitions': seq<Stmt>, intermediates': seq<Stmt>, error: Option<GenError>)
      requires |tableRanges| >= |nodes| && i < |nodes| && numPoints in vaccesses
      modifies this
      ensures numPoints in vaccesses && vaccesses == old(vaccesses)[numPoints := vaccesses[numPoints]]
      ensures PartitionStep(PartitionContext(backend, symbol, nodes, tableRanges, numPoints),
                            PartitionState(definitions, intermediates, old(vaccesses)[numPoints], old(uflNames), None), i)
              == PartitionState(definitions', intermediates', vaccesses[numPoints], uflNames, error)
    {
      definitions', intermediates', error := definitions, intermediates, None;
      var vaccess: Expr;
      match nodes[i] {
        case Terminal(mt, _) =>
          vaccess := backend.access(mt, tableRanges[i], numPoints);
          definitions' := definitions + backend.definitions(mt, tableRanges[i], numPoints, vaccess);
        case Operator(handler, isCondition, ops) =>
          var vops := OperandAccesses(vaccesses[numPoints], ops);
          if vops.Err? {
            return definitions, intermediates, Some(vops.error);
          }
          uflNames := uflNames + {handler};
          var vexpr := backend.translate(nodes[i], vops.value);
          if isCondition {
            vaccess := vexpr;
          } else {
            vaccess := Slot(symbol, |intermediates|);
            intermediates' := intermediates + [Assign(vaccess, vexpr)];
          }
      }
      var memo: map<nat, Expr> := vaccesses[numPoints][i := vaccess];
      vaccesses := vaccesses[numPoints := memo];
    }

    /**
     * `generate_partition`: visits the flagged vertices in increasing order,
     * collecting terminal definitions and numbered intermediates and
     * recording every visited vertex's access in the memo of this point count.
     */
    method GeneratePartition(symbol: Symbol, nodes: seq<Node>, flags: seq<bool>, tableRanges: seq<TableRange>,
                             numPoints: nat) returns (r: Result<seq<Stmt>, GenError>)
      requires numPoints in vaccesses
      requires |tableRanges| >= |nodes| && VisitIn(Flagged(flags), |nodes|)
      modifies this
      ensures var s := PartitionFold(PartitionContext(backend, symbol, nodes, tableRanges, numPoints), Flagged(flags),
                                     PartitionState([], [], old(vaccesses)[numPoints], old(uflNames), None));
              vaccesses == old(vaccesses)[numPoints := s.memo] && uflNames == s.names
              && r == (if s.error.Some? then Err(s.error.value) else Ok(PartitionParts(symbol, ir.alignas, s)))
    {
      ghost var ctx := PartitionContext(backend, symbol, nodes, tableRanges, numPoints);
      ghost var s0 := PartitionState([], [], vaccesses[numPoints], uflNames, None);
      var definitions: seq<Stmt> := [];
      var intermediates: seq<Stmt> := [];
      var visit := Flagged(flags);
      for k := 0 to |visit|
        invariant numPoints in vaccesses && vaccesses == old(vaccesses)[numPoints := vaccesses[numPoints]]
        invariant PartitionFold(ctx, visit[..k], s0)
                  == PartitionState(definitions, intermediates, vaccesses[numPoints], uflNames, None)
      {
        assert visit[..k + 1][..k] == visit[..k];
        var error: Option<GenError>;
        definitions, intermediates, error := VisitVertex(symbol, nodes, tableRanges, numPoints, visit[k], definitions, intermediates);
        if error.Some? {
          PartitionFoldStaysFailed(ctx, visit, s0, k + 1);
          return Err(error.value);
        }
      }
      assert visit[..|visit|] == visit;
      var arrays: seq<Stmt> := [];
      if |intermediates| > 0 {
        arrays := [ArrayDecl(Double, symbol, [|intermediates|], ir.alignas)] + intermediates;
      }
      return Ok(definitions + arrays);
    }

    /** `generate_unstructured_partition(num_points, partition)`. */
    method GenerateUnstructuredPartition(numPoints: nat, p: Partition) returns (r: Result<seq<Stmt>, GenError>)
      requires Ready(ir, GenState(vaccesses, uflNames), numPoints)
      modifies this
      ensures (r, GenState(vaccesses, uflNames))
              == UnstructuredPartition(ir, backend, GenState(old(vaccesses), old(uflNames)), numPoints, p)
    {
      var exprIr := ir.exprIrs[numPoints];
      var arraySymbol := IntermediateArray(ArrayPrefix(p), numPoints);
      var parts := GeneratePartition(arraySymbol, exprIr.nodes, exprIr.Flags(p), exprIr.tableRanges, numPoints);
      if parts.Err? {
        return parts;
      }
      return Ok(Commented(parts.value, [UnstructuredComputations(PartitionName(p))]));
    }

    /**
     * `generate_dofblock_partition(num_points, partition)`: one accumulation
     * per contribution, dof blocks in sorted order, each inside its loop nest.
     */
    method GenerateDofblockPartition(numPoints: nat, p: Partition) returns (r: Result<seq<Stmt>, GenError>)
      requires Ready(ir, GenState(vaccesses, uflNames), numPoints)
      ensures r == DofBlockPartition(ir, backend, vaccesses[numPoints], numPoints, p)
    {
      var exprIr := ir.exprIrs[numPoints];
      var blocks := exprIr.Blocks(p);
      r := BuildBlocks(ir, backend, exprIr, vaccesses[numPoints], numPoints, blocks, SortedBlocks(blocks.Keys));
    }

    /** `generate_quadrature_loops(num_points)`. */
    method GenerateQuadratureLoops(numPoints: nat) returns (r: Result<seq<Stmt>, GenError>)
      requires Ready(ir, GenState(vaccesses, uflNames), numPoints)
      modifies this
      ensures (r, GenState(vaccesses, uflNames))
              == QuadratureLoops(ir, backend, GenState(old(vaccesses), old(uflNames)), numPoints)
    {
      var setup := GenerateUnstructuredPartition(numPoints, Varying);
      if setup.Err? {
        return setup;
      }
      var body := Commented(setup.value, [LoopBodySetup(numPoints)]);
      var blocks := GenerateDofblockPartition(numPoints, Varying);
      if blocks.Err? {
        return Err(blocks.error);
      }
      body := body + blocks.value;
      return Ok(WrapQuadratureLoop(numPoints, body));
    }

    /** The body `generate` builds for one point count. */
    method GeneratePointBody(np: nat) returns (r: Result<seq<Stmt>, GenError>)
      requires Ready(ir, GenState(vaccesses, uflNames), np)
      modifies this
      ensures (r, GenState(vaccesses, uflNames)) == PointBody(ir, backend, GenState(old(vaccesses), old(uflNames)), np)
    {
      var piecewise := GenerateUnstructuredPartition(np, Piecewise);
      if piecewise.Err? {
        return piecewise;
      }
      var blocks := GenerateDofblockPartition(np, Piecewise);
      if blocks.Err? {
        return Err(blocks.error);
      }
      var loops := GenerateQuadratureLoops(np);
      if loops.Err? {
        return loops;
      }
      return Ok(piecewise.value + blocks.value + loops.value);
    }

    /** The loop of `generate` over the point counts `nps`; with `wrap` each body goes in its own scope. */
    method GeneratePointBodies(nps: seq<nat>, wrap: bool) returns (r: Result<seq<Stmt>, GenError>)
      requires forall k :: 0 <= k < |nps| ==>
                 nps[k] in ir.exprIrs && ir.exprIrs[nps[k]].Valid() && nps[k] in vaccesses
      modifies this
      ensures (r, GenState(vaccesses, uflNames)) == PointsFold(ir, backend, GenState(old(vaccesses), old(uflNames)), nps, wrap)
    {
      ghost var st0 := GenState(vaccesses, uflNames);
      var parts: seq<Stmt> := [];
      for k := 0 to |nps|
        invariant forall np :: np in vaccesses <==> np in st0.vaccesses
        invariant PointsFold(ir, backend, st0, nps[..k], wrap) == (Ok(parts), GenState(vaccesses, uflNames))
      {
        assert nps[..k + 1][..k] == nps[..k];
        var body := GeneratePointBody(nps[k]);
        if body.Err? {
          PointsFoldStaysFailed(ir, backend, st0, nps, wrap, k + 1);
          return body;
        }
        if wrap {
          parts := parts + [Scope(body.value)];
        } else {
          parts := parts + body.value;
        }
      }
      assert nps[..|nps|] == nps;
      return Ok(parts);
    }

    /**
     * `generate`: tables, the tensor reset, then one body per point count in
     * sorted order, each in its own scope when there are several, starting
     * from an empty memo for every point count.
     */
    method Generate() returns (r: Result<seq<Stmt>, GenError>)
      requires ir.Valid()
      modifies this
      ensures (r, GenState(vaccesses, uflNames)) == GenerationSpec.Generate(ir, backend, GenState(old(vaccesses), old(uflNames)))
    {
      var tables := GenerateQuadratureTables();
      if tables.Err? {
        return Err(tables.error);
      }
      var elementTables := GenerateElementTables();
      var parts := tables.value + elementTables + TensorReset(ir.tensorShape);
      var allNumPoints := SortedNumPoints(ir.exprIrs.Keys);
      vaccesses := FreshMemo(ir);
      var bodies := GeneratePointBodies(allNumPoints, |allNumPoints| > 1);
      if bodies.Err? {
        return bodies;
      }
      var finishing := FinishingStatements(ir);
      if finishing.Err? {
        return Err(finishing.error);
      }
      return Ok(parts + bodies.value + finishing.value);
    }
  }
}
