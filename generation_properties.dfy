// What the integral generator guarantees about the code it emits, proved
// about the functional specification in generation_spec.dfy (which the
// methods of integral_generator.dfy are proved to compute).
module GenerationProperties {
  import opened Base
  import opened Sorting
  import opened CodeTree
  import opened IntegralIR
  import opened GenerationSpec

  // ---------------------------------------------------------------------
  // generate_partition

  /** Intermediate `j` is the assignment to slot `j` of the partition's array. */
  predicate SlotsNumbered(symbol: Symbol, intermediates: seq<Stmt>)
  {
    forall j :: 0 <= j < |intermediates| ==>
      intermediates[j].Assign? && intermediates[j].target == Slot(symbol, j)
  }

  /** Strictly increasing, hence without repetitions. */
  predicate Increasing(visit: seq<nat>)
  {
    forall j, k :: 0 <= j < k < |visit| ==> visit[j] < visit[k]
  }

  function Operands(v: Node): seq<nat>
  {
    if v.Operator? then v.operands else []
  }

  /**
   * Topological availability: every operand of every visited vertex is in
   * the initial memo or was visited before it.
   */
  predicate OperandsReady(ctx: PartitionContext, visit: seq<nat>, memo: map<nat, Expr>)
    requires VisitIn(visit, |ctx.nodes|)
  {
    forall k, m :: 0 <= k < |visit| && 0 <= m < |Operands(ctx.nodes[visit[k]])| ==>
      Operands(ctx.nodes[visit[k]])[m] in memo || Operands(ctx.nodes[visit[k]])[m] in visit[..k]
  }

  /** How many of the visited vertices are operators that are not conditions, i.e. get a slot. */
  function StoredCount(nodes: seq<Node>, visit: seq<nat>): nat
    requires VisitIn(visit, |nodes|)
  {
    if visit == [] then 0
    else
      var v := nodes[visit[|visit| - 1]];
      StoredCount(nodes, visit[..|visit| - 1]) + (if v.Operator? && !v.isCondition then 1 else 0)
  }

  /** The handler names of the visited operator vertices. */
  function Handlers(nodes: seq<Node>, visit: seq<nat>): set<string>
    requires VisitIn(visit, |nodes|)
  {
    if visit == [] then {}
    else
      var v := nodes[visit[|visit| - 1]];
      Handlers(nodes, visit[..|visit| - 1]) + (if v.Operator? then {v.handler} else {})
  }

  /** Whether the fold over `visit` got through without an exception. */
  predicate Completed(ctx: PartitionContext, visit: seq<nat>, s0: PartitionState)
    requires ctx.Valid() && VisitIn(visit, |ctx.nodes|)
  {
    PartitionFold(ctx, visit, s0).error.None?
  }

  /** A completed fold completed every prefix of the visit. */
  lemma {:induction false} CompletedPrefix(ctx: PartitionContext, visit: seq<nat>, s0: PartitionState)
    requires ctx.Valid() && VisitIn(visit, |ctx.nodes|) && visit != []
    requires Completed(ctx, visit, s0)
    ensures Completed(ctx, visit[..|visit| - 1], s0)
  {
  }

  /** Intermediates keep their slot numbers: slot `j` holds intermediate `j`. */
  lemma {:induction false} PartitionSlotsContiguous(ctx: PartitionContext, visit: seq<nat>, s0: PartitionState)
    requires ctx.Valid() && VisitIn(visit, |ctx.nodes|)
    requires SlotsNumbered(ctx.symbol, s0.intermediates)
    ensures SlotsNumbered(ctx.symbol, PartitionFold(ctx, visit, s0).intermediates)
  {
    if visit != [] {
      PartitionSlotsContiguous(ctx, visit[..|visit| - 1], s0);
    }
  }

  /** After a complete fold, the memo holds the initial entries and exactly the visited vertices. */
  lemma {:induction false} PartitionMemoKeys(ctx: PartitionContext, visit: seq<nat>, s0: PartitionState)
    requires ctx.Valid() && VisitIn(visit, |ctx.nodes|) && s0.error.None?
    requires Completed(ctx, visit, s0)
    ensures forall i :: i in PartitionFold(ctx, visit, s0).memo <==> i in s0.memo || i in visit
  {
    if visit != [] {
      var init := visit[..|visit| - 1];
      CompletedPrefix(ctx, visit, s0);
      PartitionMemoKeys(ctx, init, s0);
      assert visit == init + [visit[|visit| - 1]];
    }
  }

  /** Below `k`, a visit and the visit without its last vertex agree. */
  lemma PrefixAgrees(visit: seq<nat>, k: nat)
    requires k < |visit|
    ensures var init := visit[..|visit| - 1];
            visit[..k] == init[..k] && (k < |init| ==> visit[k] == init[k]) && (k == |init| ==> visit[..k] == init)
  {
  }

  /** Topological availability of a visit carries over to its prefix, and covers its last vertex. */
  lemma ReadyPrefix(ctx: PartitionContext, visit: seq<nat>, memo: map<nat, Expr>)
    requires VisitIn(visit, |ctx.nodes|) && visit != []
    ensures var init := visit[..|visit| - 1];
            var ops := Operands(ctx.nodes[visit[|visit| - 1]]);
            OperandsReady(ctx, visit, memo) ==>
              OperandsReady(ctx, init, memo) && forall m :: 0 <= m < |ops| ==> ops[m] in memo || ops[m] in init
  {
    if OperandsReady(ctx, visit, memo) {
      ReadyInit(ctx, visit, memo);
      ReadyLast(ctx, visit, memo);
    }
  }

  lemma ReadyInit(ctx: PartitionContext, visit: seq<nat>, memo: map<nat, Expr>)
    requires VisitIn(visit, |ctx.nodes|) && visit != [] && OperandsReady(ctx, visit, memo)
    ensures OperandsReady(ctx, visit[..|visit| - 1], memo)
  {
    var init := visit[..|visit| - 1];
    forall k, m | 0 <= k < |init| && 0 <= m < |Operands(ctx.nodes[init[k]])|
      ensures Operands(ctx.nodes[init[k]])[m] in memo || Operands(ctx.nodes[init[k]])[m] in init[..k]
    {
      PrefixAgrees(visit, k);
      assert Operands(ctx.nodes[visit[k]])[m] in memo || Operands(ctx.nodes[visit[k]])[m] in visit[..k];
    }
  }

  lemma ReadyLast(ctx: PartitionContext, visit: seq<nat>, memo: map<nat, Expr>)
    requires VisitIn(visit, |ctx.nodes|) && visit != [] && OperandsReady(ctx, visit, memo)
    ensures var ops := Operands(ctx.nodes[visit[|visit| - 1]]);
            forall m :: 0 <= m < |ops| ==> ops[m] in memo || ops[m] in visit[..|visit| - 1]
  {
    var ops := Operands(ctx.nodes[visit[|visit| - 1]]);
    forall m | 0 <= m < |ops|
      ensures ops[m] in memo || ops[m] in visit[..|visit| - 1]
    {
      PrefixAgrees(visit, |visit| - 1);
      assert Operands(ctx.nodes[visit[|visit| - 1]])[m] in memo
             || Operands(ctx.nodes[visit[|visit| - 1]])[m] in visit[..|visit| - 1];
    }
  }

  /** A ready prefix followed by a vertex whose operands are ready is a ready visit. */
  lemma ReadyExtend(ctx: PartitionContext, visit: seq<nat>, memo: map<nat, Expr>)
    requires VisitIn(visit, |ctx.nodes|) && visit != []
    requires var init := visit[..|visit| - 1];
             var ops := Operands(ctx.nodes[visit[|visit| - 1]]);
             OperandsReady(ctx, init, memo) && forall m :: 0 <= m < |ops| ==> ops[m] in memo || ops[m] in init
    ensures OperandsReady(ctx, visit, memo)
  {
    var init := visit[..|visit| - 1];
    forall k, m | 0 <= k < |visit| && 0 <= m < |Operands(ctx.nodes[visit[k]])|
      ensures Operands(ctx.nodes[visit[k]])[m] in memo || Operands(ctx.nodes[visit[k]])[m] in visit[..k]
    {
      PrefixAgrees(visit, k);
      if k < |init| {
        assert Operands(ctx.nodes[init[k]])[m] in memo || Operands(ctx.nodes[init[k]])[m] in init[..k];
      }
    }
  }

  /** After a complete prefix, the last vertex completes exactly when its operands are in the memo or visited. */
  lemma CompletedStep(ctx: PartitionContext, visit: seq<nat>, s0: PartitionState)
    requires ctx.Valid() && VisitIn(visit, |ctx.nodes|) && s0.error.None? && visit != []
    requires Completed(ctx, visit[..|visit| - 1], s0)
    ensures var init := visit[..|visit| - 1];
            var ops := Operands(ctx.nodes[visit[|visit| - 1]]);
            Completed(ctx, visit, s0) <==> forall m :: 0 <= m < |ops| ==> ops[m] in s0.memo || ops[m] in init
  {
    var init := visit[..|visit| - 1];
    var last := visit[|visit| - 1];
    var ops := Operands(ctx.nodes[last]);
    PartitionMemoKeys(ctx, init, s0);
    var s := PartitionFold(ctx, init, s0);
    if ctx.nodes[last].Operator? {
      assert OperandAccesses(s.memo, ops).Ok? <==> forall m :: 0 <= m < |ops| ==> ops[m] in s.memo;
    }
  }

  /**
   * `generate_partition` raises exactly when some visited operator refers to
   * an operand that is neither in the initial memo nor visited earlier.
   */
  lemma {:induction false} PartitionCompletesIffReady(ctx: PartitionContext, visit: seq<nat>, s0: PartitionState)
    requires ctx.Valid() && VisitIn(visit, |ctx.nodes|) && s0.error.None?
    ensures Completed(ctx, visit, s0) <==> OperandsReady(ctx, visit, s0.memo)
  {
    if visit != [] {
      var init := visit[..|visit| - 1];
      PartitionCompletesIffReady(ctx, init, s0);
      ReadyPrefix(ctx, visit, s0.memo);
      if Completed(ctx, init, s0) {
        CompletedStep(ctx, visit, s0);
        var ops := Operands(ctx.nodes[visit[|visit| - 1]]);
        if forall m :: 0 <= m < |ops| ==> ops[m] in s0.memo || ops[m] in init {
          ReadyExtend(ctx, visit, s0.memo);
        }
      } else {
        assert !Completed(ctx, visit, s0);
      }
    }
  }

  /**
   * After a complete fold, one intermediate was added per visited operator
   * that is not a condition (conditions are inlined), and the operator
   * names recorded are exactly those of the visited operators.
   */
  lemma {:induction false} PartitionCounts(ctx: PartitionContext, visit: seq<nat>, s0: PartitionState)
    requires ctx.Valid() && VisitIn(visit, |ctx.nodes|) && s0.error.None?
    requires Completed(ctx, visit, s0)
    ensures |PartitionFold(ctx, visit, s0).intermediates| == |s0.intermediates| + StoredCount(ctx.nodes, visit)
    ensures PartitionFold(ctx, visit, s0).names == s0.names + Handlers(ctx.nodes, visit)
  {
    if visit != [] {
      CompletedPrefix(ctx, visit, s0);
      PartitionCounts(ctx, visit[..|visit| - 1], s0);
    }
  }

  /**
   * After a complete fold over distinct vertices, the memo entry of a
   * visited terminal is the backend's access to it, and that of a visited
   * operator which is not a condition is a slot of the array whose
   * assignment is among the intermediates; a condition is inlined, so its
   * entry is the backend's translation of it itself.
   */
  lemma {:induction false} PartitionMemoValues(ctx: PartitionContext, visit: seq<nat>, s0: PartitionState, i: nat)
    requires ctx.Valid() && VisitIn(visit, |ctx.nodes|) && Increasing(visit) && s0.error.None?
    requires Completed(ctx, visit, s0) && i in visit
    ensures var s := PartitionFold(ctx, visit, s0);
            i in s.memo
            && (ctx.nodes[i].Terminal? ==>
                  s.memo[i] == ctx.backend.access(ctx.nodes[i].terminal, ctx.tableRanges[i], ctx.numPoints))
            && (ctx.nodes[i].Operator? && !ctx.nodes[i].isCondition ==>
                  exists j :: 0 <= j < |s.intermediates| && s.memo[i] == Slot(ctx.symbol, j)
                              && s.intermediates[j].Assign? && s.intermediates[j].target == s.memo[i])
            && (ctx.nodes[i].Operator? && ctx.nodes[i].isCondition ==>
                  exists vops :: s.memo[i] == ctx.backend.translate(ctx.nodes[i], vops))
  {
    var init := visit[..|visit| - 1];
    var last := visit[|visit| - 1];
    CompletedPrefix(ctx, visit, s0);
    var s := PartitionFold(ctx, init, s0);
    if i == last {
      if ctx.nodes[i].Operator? && !ctx.nodes[i].isCondition {
        var j := |s.intermediates|;
        assert PartitionFold(ctx, visit, s0).intermediates[j].target == Slot(ctx.symbol, j);
      }
      if ctx.nodes[i].Operator? && ctx.nodes[i].isCondition {
        var vops := OperandAccesses(s.memo, Operands(ctx.nodes[i])).value;
        assert PartitionFold(ctx, visit, s0).memo[i] == ctx.backend.translate(ctx.nodes[i], vops);
      }
    } else {
      assert i in init by {
        var k :| 0 <= k < |visit| && visit[k] == i;
        assert k < |init|;
        assert init[k] == i;
      }
      assert i < last by {
        var k :| 0 <= k < |init| && init[k] == i;
        assert visit[k] == i;
      }
      PartitionMemoValues(ctx, init, s0, i);
      if ctx.nodes[i].Operator? && !ctx.nodes[i].isCondition {
        var j :| 0 <= j < |s.intermediates| && s.memo[i] == Slot(ctx.symbol, j)
                   && s.intermediates[j].Assign? && s.intermediates[j].target == s.memo[i];
        assert PartitionFold(ctx, visit, s0).intermediates[j] == s.intermediates[j];
      }
      if ctx.nodes[i].Operator? && ctx.nodes[i].isCondition {
        var vops :| s.memo[i] == ctx.backend.translate(ctx.nodes[i], vops);
        assert PartitionFold(ctx, visit, s0).memo[i] == ctx.backend.translate(ctx.nodes[i], vops);
      }
    }
  }

  // ---------------------------------------------------------------------
  // generate_dofblock_partition

  /** The statement at the bottom of a chain of single-statement loops. */
  function Innermost(s: Stmt): Stmt
  {
    match s
    case ForRange(_, _, _, body) => if |body| == 1 then Innermost(body[0]) else s
    case _ => s
  }

  /** The headers (index, begin, end) of that chain of loops, outermost first. */
  function NestHeaders(s: Stmt): seq<(Symbol, Expr, Expr)>
  {
    match s
    case ForRange(index, begin, end, body) =>
      [(index, begin, end)] + (if |body| == 1 then NestHeaders(body[0]) else [])
    case _ => []
  }

  /** The axes from `k` on that get a loop: those that are not quadrature axes, in increasing order. */
  function LoopAxes(d: BlockData, k: nat): (r: seq<nat>)
    requires |d.ttypes| >= d.Rank()
    ensures forall j :: 0 <= j < |r| ==> k <= r[j] < d.Rank() && d.ttypes[r[j]] != QuadratureTable
    decreases d.Rank() - k
  {
    if k >= d.Rank() then []
    else (if d.ttypes[k] == QuadratureTable then [] else [k]) + LoopAxes(d, k + 1)
  }

  /** The loop axes from `k` on are exactly the non-quadrature axes from `k` on, in increasing order. */
  ghost predicate AxesExact(d: BlockData, k: nat)
    requires |d.ttypes| >= d.Rank()
  {
    (forall a :: a in LoopAxes(d, k) <==> k <= a < d.Rank() && d.ttypes[a] != QuadratureTable)
    && Increasing(LoopAxes(d, k))
  }

  /** Every non-quadrature axis from `k` on gets a loop, and the loops go in increasing axis order. */
  lemma {:induction false} LoopAxesExact(d: BlockData, k: nat)
    requires |d.ttypes| >= d.Rank()
    ensures forall a :: a in LoopAxes(d, k) <==> k <= a < d.Rank() && d.ttypes[a] != QuadratureTable
    ensures Increasing(LoopAxes(d, k))
    decreases d.Rank() - k
  {
    if k < d.Rank() {
      LoopAxesExact(d, k + 1);
      LoopAxesStep(d, k);
    }
  }

  /** Axis `k` goes in front of the loop axes after it, if it gets a loop at all. */
  lemma LoopAxesStep(d: BlockData, k: nat)
    requires |d.ttypes| >= d.Rank() && k < d.Rank()
    requires AxesExact(d, k + 1)
    ensures AxesExact(d, k)
  {
    var rest := LoopAxes(d, k + 1);
    if d.ttypes[k] != QuadratureTable {
      assert LoopAxes(d, k) == [k] + rest;
      assert forall j :: 0 <= j < |rest| ==> k < rest[j];
    } else {
      assert LoopAxes(d, k) == rest;
    }
  }

  /** The loop of `LoopNest` for axis `a`: the argument loop index over the dof range. */
  function LoopHeader(dofblock: DofBlock, a: nat): (Symbol, Expr, Expr)
    requires a < |dofblock|
  {
    (ArgumentLoopIndex(a), LiteralInt(dofblock[a].0), LiteralInt(dofblock[a].1))
  }

  /** Whatever the loop nest, the accumulation stays alone at its bottom. */
  lemma {:induction false} LoopNestInnermost(inner: Stmt, d: BlockData, dofblock: DofBlock, k: nat)
    requires |d.ttypes| >= d.Rank() && |dofblock| >= d.Rank() && !inner.ForRange?
    ensures Innermost(LoopNest(inner, d, dofblock, k)) == inner
    decreases d.Rank() - k
  {
    if k < d.Rank() {
      LoopNestInnermost(inner, d, dofblock, k + 1);
    }
  }

  /** The loop headers for the axes `axes`, in that order. */
  function Headers(dofblock: DofBlock, axes: seq<nat>): (r: seq<(Symbol, Expr, Expr)>)
    requires forall j :: 0 <= j < |axes| ==> axes[j] < |dofblock|
    ensures |r| == |axes| && forall j :: 0 <= j < |axes| ==> r[j] == LoopHeader(dofblock, axes[j])
  {
    if axes == [] then [] else [LoopHeader(dofblock, axes[0])] + Headers(dofblock, axes[1..])
  }

  /** The loops of the nest from axis `k` on have the headers of the loop axes from `k` on. */
  predicate HeadersMatch(inner: Stmt, d: BlockData, dofblock: DofBlock, k: nat)
    requires |d.ttypes| >= d.Rank() && |dofblock| >= d.Rank()
  {
    NestHeaders(LoopNest(inner, d, dofblock, k)) == Headers(dofblock, LoopAxes(d, k))
  }

  /**
   * The loop nest `generate_dofblock_partition` puts around an
   * accumulation: one loop per non-quadrature axis, axis 0 outermost, each
   * over its dof range.
   */
  lemma LoopNestHeaders(inner: Stmt, d: BlockData, dofblock: DofBlock, k: nat)
    requires |d.ttypes| >= d.Rank() && |dofblock| >= d.Rank() && !inner.ForRange?
    ensures NestHeaders(LoopNest(inner, d, dofblock, k)) == Headers(dofblock, LoopAxes(d, k))
  {
    LoopNestHeadersFrom(inner, d, dofblock, k);
  }

  lemma {:induction false} LoopNestHeadersFrom(inner: Stmt, d: BlockData, dofblock: DofBlock, k: nat)
    requires |d.ttypes| >= d.Rank() && |dofblock| >= d.Rank() && !inner.ForRange?
    ensures HeadersMatch(inner, d, dofblock, k)
    decreases d.Rank() - k
  {
    if k < d.Rank() {
      LoopNestHeadersFrom(inner, d, dofblock, k + 1);
      LoopNestHeadersStep(inner, d, dofblock, k);
    } else {
      LoopNestHeadersBase(inner, d, dofblock, k);
    }
  }

  /** Past the last axis the nest is the accumulation alone, with no loops. */
  lemma LoopNestHeadersBase(inner: Stmt, d: BlockData, dofblock: DofBlock, k: nat)
    requires |d.ttypes| >= d.Rank() && |dofblock| >= d.Rank() && !inner.ForRange? && k >= d.Rank()
    ensures HeadersMatch(inner, d, dofblock, k)
  {
    assert LoopNest(inner, d, dofblock, k) == inner;
    assert LoopAxes(d, k) == [];
    assert NestHeaders(inner) == [] by {
      match inner
      case ForRange(_, _, _, _) =>
      case _ =>
    }
  }

  /** One axis of the induction in LoopNestHeaders. */
  lemma LoopNestHeadersStep(inner: Stmt, d: BlockData, dofblock: DofBlock, k: nat)
    requires |d.ttypes| >= d.Rank() && |dofblock| >= d.Rank() && k < d.Rank()
    requires HeadersMatch(inner, d, dofblock, k + 1)
    ensures HeadersMatch(inner, d, dofblock, k)
  {
    var axes := LoopAxes(d, k + 1);
    if d.ttypes[k] != QuadratureTable {
      var below := LoopNest(inner, d, dofblock, k + 1);
      assert LoopNest(inner, d, dofblock, k)
             == ForRange(ArgumentLoopIndex(k), LiteralInt(dofblock[k].0), LiteralInt(dofblock[k].1), [below]);
      assert LoopAxes(d, k) == [k] + axes;
      assert ([k] + axes)[0] == k && ([k] + axes)[1..] == axes;
    }
  }

  /** The axes below `rank` with a table access, i.e. neither quadrature nor ones axes. */
  lemma TableAxesExact(ttypes: seq<TableType>, rank: nat)
    requires rank <= |ttypes|
    ensures forall a: nat :: a in TableAxes(ttypes, rank) <==> a < rank && HasTableAccess(ttypes[a])
    ensures Increasing(TableAxes(ttypes, rank))
  {
    var flags := seq(rank, i requires 0 <= i < rank => HasTableAccess(ttypes[i]));
    FlaggedOrdered(flags);
    forall a: nat | a < rank
      ensures flags[a] == HasTableAccess(ttypes[a])
    {
    }
  }

  /** Going from the axes below `n - 1` to the axes below `n`. */
  lemma TableAxesStep(ttypes: seq<TableType>, n: nat)
    requires 0 < n <= |ttypes|
    ensures TableAxes(ttypes, n)
            == TableAxes(ttypes, n - 1) + (if HasTableAccess(ttypes[n - 1]) then [n - 1] else [])
  {
    var flags := seq(n, i requires 0 <= i < n => HasTableAccess(ttypes[i]));
    assert flags[..n - 1] == seq(n - 1, i requires 0 <= i < n - 1 => HasTableAccess(ttypes[i]));
  }

  /** The table factors are one backend access per table axis, in axis order. */
  lemma {:induction false} TableAccessesPerAxis(b: Backend, e: ExprIR, numPoints: nat, d: BlockData, n: nat)
    requires d.Valid(|e.modifiedArguments|) && n <= d.Rank()
    ensures var t := TableAccesses(b, e, numPoints, d, n);
            var axes := TableAxes(d.ttypes, n);
            |t| == |axes| && forall j :: 0 <= j < |t| ==> axes[j] < d.Rank() && t[j] == ArgumentAccess(b, e, numPoints, d, axes[j])
  {
    if n > 0 {
      TableAccessesPerAxis(b, e, numPoints, d, n - 1);
      TableAxesStep(d.ttypes, n);
    }
  }

  /**
   * The factors of one contribution: the factor vertex's access unless it
   * is the literal 1.0, then one table access per table axis; the
   * computation fails exactly on a missing memo entry or a "zeros" axis.
   */
  lemma BlockFactorsShape(b: Backend, e: ExprIR, memo: map<nat, Expr>, numPoints: nat, d: BlockData)
    requires d.Valid(|e.modifiedArguments|) && d.factorIndex < |e.nodes|
    ensures var r := BlockFactors(b, e, memo, numPoints, d);
            var one := IsLiteralOne(e.nodes[d.factorIndex]);
            (r.Ok? <==> (one || d.factorIndex in memo) && forall i :: 0 <= i < d.Rank() ==> d.ttypes[i] != ZerosTable)
            && (r.Ok? ==>
                  var head := if one then 0 else 1;
                  var axes := TableAxes(d.ttypes, d.Rank());
                  |r.value| == head + |axes|
                  && (!one ==> r.value[0] == memo[d.factorIndex])
                  && forall j :: 0 <= j < |axes| ==> r.value[head + j] == ArgumentAccess(b, e, numPoints, d, axes[j]))
  {
    TableAccessesPerAxis(b, e, numPoints, d, d.Rank());
    var r := BlockFactors(b, e, memo, numPoints, d);
    if r.Ok? {
      var pre := if IsLiteralOne(e.nodes[d.factorIndex]) then [] else [memo[d.factorIndex]];
      var t := TableAccesses(b, e, numPoints, d, d.Rank());
      assert r.value == pre + t;
      forall j | 0 <= j < |t|
        ensures r.value[|pre| + j] == t[j]
      {
      }
    }
  }

  /** Whether `s` is a loop nest around an accumulation into the element tensor. */
  predicate AccumulatesIntoTensor(s: Stmt)
  {
    var inner := Innermost(s);
    inner.AssignAdd? && inner.target.ArrayAccess? && inner.target.arrayName == ElementTensor
  }

  /**
   * The statement of one contribution: the accumulation
   * `A[flat index] += term` inside its loop nest, where the index uses the
   * quadrature loop index on quadrature axes and the argument loop index
   * elsewhere, and the term is the product of the factors, or 1.0 when
   * there are none.
   */
  lemma BlockStatementShape(ir: IR, b: Backend, e: ExprIR, memo: map<nat, Expr>, numPoints: nat,
                            dofblock: DofBlock, d: BlockData)
    requires d.Valid(|e.modifiedArguments|) && d.factorIndex < |e.nodes| && |dofblock| >= d.Rank()
    ensures var r := BlockStatement(ir, b, e, memo, numPoints, dofblock, d);
            r.Ok? ==>
              var factors := BlockFactors(b, e, memo, numPoints, d).value;
              var axes := LoopAxes(d, 0);
              var h := NestHeaders(r.value);
              AccumulatesIntoTensor(r.value)
              && Innermost(r.value).target.index == FlattenedIndex(AxisIndices(d, numPoints), ir.tensorShape)
              && (forall i :: 0 <= i < d.Rank() ==>
                    AxisIndices(d, numPoints)[i]
                    == if d.ttypes[i] == QuadratureTable then QuadratureLoopIndex(numPoints) else ArgumentLoopIndex(i))
              && (Innermost(r.value).value == LiteralFloat(1.0) <==> factors == [])
              && (factors != [] ==> Innermost(r.value).value == Product(factors))
              && h == Headers(dofblock, axes)
  {
    var r := BlockStatement(ir, b, e, memo, numPoints, dofblock, d);
    if r.Ok? {
      var factors := BlockFactors(b, e, memo, numPoints, d).value;
      LoopNestInnermost(Accumulation(ir, d, numPoints, factors), d, dofblock, 0);
      LoopNestHeaders(Accumulation(ir, d, numPoints, factors), d, dofblock, 0);
    }
  }

  /** Every statement of one dof block's contributions accumulates into the element tensor. */
  lemma {:induction false} ContributionsAccumulate(ir: IR, b: Backend, e: ExprIR, memo: map<nat, Expr>, numPoints: nat,
                                                   dofblock: DofBlock, ds: seq<BlockData>)
    requires ContributionsValid(e, dofblock, ds)
    ensures var r := ContributionsFold(ir, b, e, memo, numPoints, dofblock, ds);
            r.Ok? ==> |r.value| == |ds| && forall k :: 0 <= k < |r.value| ==> AccumulatesIntoTensor(r.value[k])
  {
    if ds != [] {
      var d := ds[|ds| - 1];
      ContributionsAccumulate(ir, b, e, memo, numPoints, dofblock, ds[..|ds| - 1]);
      BlockStatementShape(ir, b, e, memo, numPoints, dofblock, d);
    }
  }

  /** The number of contributions to the dof blocks `keys`. */
  function ContributionCount(blocks: map<DofBlock, seq<BlockData>>, keys: seq<DofBlock>): nat
    requires forall k :: 0 <= k < |keys| ==> keys[k] in blocks
  {
    if keys == [] then 0 else ContributionCount(blocks, keys[..|keys| - 1]) + |blocks[keys[|keys| - 1]]|
  }

  /** One accumulation into the element tensor per contribution, across all dof blocks. */
  lemma {:induction false} BlocksAccumulate(ir: IR, b: Backend, e: ExprIR, memo: map<nat, Expr>, numPoints: nat,
                                            blocks: map<DofBlock, seq<BlockData>>, keys: seq<DofBlock>)
    requires e.BlocksValid(blocks)
    requires forall k :: 0 <= k < |keys| ==> keys[k] in blocks
    ensures var r := BlocksFold(ir, b, e, memo, numPoints, blocks, keys);
            r.Ok? ==> |r.value| == ContributionCount(blocks, keys)
                      && forall k :: 0 <= k < |r.value| ==> AccumulatesIntoTensor(r.value[k])
  {
    if keys != [] {
      var dofblock := keys[|keys| - 1];
      BlocksAccumulate(ir, b, e, memo, numPoints, blocks, keys[..|keys| - 1]);
      ContributionsAccumulate(ir, b, e, memo, numPoints, dofblock, blocks[dofblock]);
    }
  }

  /**
   * `generate_dofblock_partition`: the dof blocks are taken in sorted order,
   * and every statement emitted is an accumulation into the element tensor.
   */
  lemma DofBlockPartitionAccumulates(ir: IR, b: Backend, memo: map<nat, Expr>, numPoints: nat, p: Partition)
    requires numPoints in ir.exprIrs && ir.exprIrs[numPoints].Valid()
    ensures SortedBy(SortedBlocks(ir.exprIrs[numPoints].Blocks(p).Keys), TupleLess)
    ensures var r := DofBlockPartition(ir, b, memo, numPoints, p);
            r.Ok? ==> forall k :: 0 <= k < |r.value| ==> AccumulatesIntoTensor(r.value[k])
  {
    var e := ir.exprIrs[numPoints];
    SortedBlocksOrdered(e.Blocks(p).Keys);
    BlocksAccumulate(ir, b, e, memo, numPoints, e.Blocks(p), SortedBlocks(e.Blocks(p).Keys));
  }

  // ---------------------------------------------------------------------
  // generate_quadrature_tables and generate_element_tables

  /** Whether `stmts` declares an array named `sym`. */
  predicate Declares(stmts: seq<Stmt>, sym: Symbol)
  {
    exists k :: 0 <= k < |stmts| && stmts[k].ArrayDecl? && stmts[k].symbol == sym
  }

  lemma DeclaresAppend(a: seq<Stmt>, b: seq<Stmt>, sym: Symbol)
    ensures Declares(a + b, sym) <==> Declares(a, sym) || Declares(b, sym)
  {
    if Declares(a + b, sym) {
      var k :| 0 <= k < |a + b| && (a + b)[k].ArrayDecl? && (a + b)[k].symbol == sym;
      if k >= |a| {
        assert b[k - |a|] == (a + b)[k];
      }
    }
    if Declares(a, sym) {
      var k :| 0 <= k < |a| && a[k].ArrayDecl? && a[k].symbol == sym;
      assert (a + b)[k] == a[k];
    }
    if Declares(b, sym) {
      var k :| 0 <= k < |b| && b[k].ArrayDecl? && b[k].symbol == sym;
      assert (a + b)[|a| + k] == b[k];
    }
  }

  /** Comments declare nothing. */
  lemma DeclaresCommented(code: seq<Stmt>, comments: seq<CommentKind>, sym: Symbol)
    ensures Declares(Commented(code, comments), sym) <==> Declares(code, sym)
  {
    if code != [] {
      var r := Commented(code, comments);
      assert r == r[..|comments|] + code;
      var head := r[..|comments|];
      DeclaresAppend(head, code, sym);
      assert forall k :: 0 <= k < |head| ==> head[k] == Comment(comments[k]);
      assert !Declares(head, sym);
    }
  }

  /**
   * The checks on one quadrature rule: it passes exactly when there are as
   * many weights as points, the point count has an expression
   * representation, and the points array has that many rows (at least one).
   */
  predicate RuleChecksPass(ir: IR, numPoints: nat)
    requires numPoints in ir.quadratureRules
  {
    var rule := ir.quadratureRules[numPoints];
    rule.numWeights == numPoints && numPoints in ir.exprIrs && rule.numPointRows > 0 && rule.numPointRows == numPoints
  }

  /**
   * Every weights array declared in `decls` has one entry per point, and
   * every points array one entry per point and coordinate of its rule.
   */
  predicate TablesSized(ir: IR, decls: seq<Stmt>)
  {
    forall k :: 0 <= k < |decls| && decls[k].ArrayDecl? ==>
      (decls[k].symbol.WeightsArray? ==> decls[k].sizes == [decls[k].symbol.numPoints])
      && (decls[k].symbol.PointsArray? ==>
            decls[k].symbol.numPoints in ir.quadratureRules
            && decls[k].sizes == [decls[k].symbol.numPoints * ir.quadratureRules[decls[k].symbol.numPoints].pointDimension])
  }

  lemma TablesSizedAppend(ir: IR, a: seq<Stmt>, b: seq<Stmt>)
    requires TablesSized(ir, a) && TablesSized(ir, b)
    ensures TablesSized(ir, a + b)
  {
    forall k | 0 <= k < |a + b|
      ensures (a + b)[k] == if k < |a| then a[k] else b[k - |a|]
    {
    }
  }

  lemma TablesSizedCommented(ir: IR, code: seq<Stmt>, comments: seq<CommentKind>)
    requires TablesSized(ir, code)
    ensures TablesSized(ir, Commented(code, comments))
  {
    var r := Commented(code, comments);
    forall k | |comments| <= k < |r|
      ensures r[k] == code[k - |comments|]
    {
      assert r[k] == r[|comments|..][k - |comments|];
    }
  }

  /**
   * The declarations for one rule: the weights array exactly when the
   * weights are needed, the points array exactly when the points have a
   * dimension and are needed, and nothing else; the weights array has
   * `num_points` entries and the points array `num_points * dim`.
   */
  lemma RuleTablesDecls(ir: IR, numPoints: nat)
    requires numPoints in ir.quadratureRules
    ensures RuleTables(ir, numPoints).Ok? <==> RuleChecksPass(ir, numPoints)
    ensures var r := RuleTables(ir, numPoints);
            r.Ok? ==>
              (forall k :: 0 <= k < |r.value| ==> r.value[k].ArrayDecl?)
              && forall np :: (Declares(r.value, WeightsArray(np)) <==> np == numPoints && ir.exprIrs[numPoints].needWeights)
                              && (Declares(r.value, PointsArray(np))
                                  <==> np == numPoints && ir.quadratureRules[numPoints].pointDimension > 0
                                       && ir.exprIrs[numPoints].needPoints)
    ensures RuleTables(ir, numPoints).Ok? ==> TablesSized(ir, RuleTables(ir, numPoints).value)
  {
    var r := RuleTables(ir, numPoints);
    if r.Ok? {
      var e := ir.exprIrs[numPoints];
      var rule := ir.quadratureRules[numPoints];
      var weights := ArrayDecl(StaticConstDouble, WeightsArray(numPoints), [numPoints], ir.alignas);
      var points := ArrayDecl(StaticConstDouble, PointsArray(numPoints), [numPoints * rule.pointDimension], ir.alignas);
      var w := if e.needWeights then [weights] else [];
      var p := if rule.pointDimension > 0 && e.needPoints then [points] else [];
      assert r.value == w + p;
      assert e.needWeights ==> w[0] == weights;
      assert rule.pointDimension > 0 && e.needPoints ==> p[0] == points;
      TablesSizedAppend(ir, w, p);
      forall np
        ensures Declares(r.value, WeightsArray(np)) <==> np == numPoints && e.needWeights
        ensures Declares(r.value, PointsArray(np)) <==> np == numPoints && rule.pointDimension > 0 && e.needPoints
      {
        DeclaresAppend(w, p, WeightsArray(np));
        DeclaresAppend(w, p, PointsArray(np));
      }
    }
  }

  /** Every rule among `nps` passes its checks. */
  predicate AllRulesPass(ir: IR, nps: seq<nat>)
    requires forall k :: 0 <= k < |nps| ==> nps[k] in ir.quadratureRules
  {
    forall k :: 0 <= k < |nps| ==> RuleChecksPass(ir, nps[k])
  }

  /**
   * `decls` declares the weights array of a rule among `nps` exactly when
   * its weights are needed, and its points array exactly when its points
   * have a dimension and are needed.
   */
  ghost predicate TablesDeclared(ir: IR, nps: seq<nat>, decls: seq<Stmt>)
  {
    forall np :: (Declares(decls, WeightsArray(np))
                  <==> np in nps && np in ir.exprIrs && ir.exprIrs[np].needWeights)
                 && (Declares(decls, PointsArray(np))
                     <==> np in nps && np in ir.quadratureRules && np in ir.exprIrs
                          && ir.quadratureRules[np].pointDimension > 0 && ir.exprIrs[np].needPoints)
  }

  /** The table declarations of the rules `nps`, or the first failed check. */
  lemma {:induction false} TablesFoldDecls(ir: IR, nps: seq<nat>)
    requires forall k :: 0 <= k < |nps| ==> nps[k] in ir.quadratureRules
    ensures TablesFold(ir, nps).Ok? <==> AllRulesPass(ir, nps)
    ensures TablesFold(ir, nps).Ok? ==> TablesDeclared(ir, nps, TablesFold(ir, nps).value)
    ensures TablesFold(ir, nps).Ok? ==> TablesSized(ir, TablesFold(ir, nps).value)
  {
    if nps != [] {
      TablesFoldDecls(ir, nps[..|nps| - 1]);
      TablesFoldStep(ir, nps);
    }
  }

  /** One more rule: its checks join the others, its arrays the declarations. */
  lemma TablesFoldStep(ir: IR, nps: seq<nat>)
    requires nps != []
    requires forall k :: 0 <= k < |nps| ==> nps[k] in ir.quadratureRules
    requires var init := nps[..|nps| - 1];
             && (TablesFold(ir, init).Ok? <==> AllRulesPass(ir, init))
             && (TablesFold(ir, init).Ok? ==> TablesDeclared(ir, init, TablesFold(ir, init).value))
             && (TablesFold(ir, init).Ok? ==> TablesSized(ir, TablesFold(ir, init).value))
    ensures TablesFold(ir, nps).Ok? <==> AllRulesPass(ir, nps)
    ensures TablesFold(ir, nps).Ok? ==> TablesDeclared(ir, nps, TablesFold(ir, nps).value)
    ensures TablesFold(ir, nps).Ok? ==> TablesSized(ir, TablesFold(ir, nps).value)
  {
    var init := nps[..|nps| - 1];
    var last := nps[|nps| - 1];
    RuleTablesDecls(ir, last);
    assert nps == init + [last];
    assert AllRulesPass(ir, nps) <==> AllRulesPass(ir, init) && RuleChecksPass(ir, last) by {
      forall k | 0 <= k < |init|
        ensures init[k] == nps[k]
      {
      }
    }
    var r := TablesFold(ir, nps);
    if r.Ok? {
      var a := TablesFold(ir, init).value;
      var b := RuleTables(ir, last).value;
      assert r.value == a + b;
      TablesSizedAppend(ir, a, b);
      forall np
        ensures Declares(r.value, WeightsArray(np)) <==> Declares(a, WeightsArray(np)) || Declares(b, WeightsArray(np))
        ensures Declares(r.value, PointsArray(np)) <==> Declares(a, PointsArray(np)) || Declares(b, PointsArray(np))
      {
        DeclaresAppend(a, b, WeightsArray(np));
        DeclaresAppend(a, b, PointsArray(np));
      }
    }
  }

  /**
   * `generate_quadrature_tables`: nothing for the integral types that need
   * no tables; otherwise it fails exactly when some rule fails its checks,
   * and declares the weights array of a rule exactly when its weights are
   * needed and its points array exactly when its points have a dimension
   * and are needed, each array sized as `TablesSized` says.
   */
  lemma QuadratureTablesDecls(ir: IR)
    ensures ir.integralType.SkipsQuadratureTables() ==> QuadratureTables(ir) == Ok([])
    ensures !ir.integralType.SkipsQuadratureTables() ==>
              (QuadratureTables(ir).Ok? <==> forall np :: np in ir.quadratureRules ==> RuleChecksPass(ir, np))
    ensures var r := QuadratureTables(ir);
            !ir.integralType.SkipsQuadratureTables() && r.Ok? ==>
              forall np :: (Declares(r.value, WeightsArray(np))
                            <==> np in ir.quadratureRules && np in ir.exprIrs && ir.exprIrs[np].needWeights)
                           && (Declares(r.value, PointsArray(np))
                               <==> np in ir.quadratureRules && np in ir.exprIrs
                                    && ir.quadratureRules[np].pointDimension > 0 && ir.exprIrs[np].needPoints)
    ensures QuadratureTables(ir).Ok? ==> TablesSized(ir, QuadratureTables(ir).value)
  {
    if !ir.integralType.SkipsQuadratureTables() {
      var nps := SortedNumPoints(ir.quadratureRules.Keys);
      TablesFoldDecls(ir, nps);
      var r := TablesFold(ir, nps);
      if r.Ok? {
        TablesSizedCommented(ir, r.value, [QuadratureTablesSection]);
        forall np
          ensures Declares(Commented(r.value, [QuadratureTablesSection]), WeightsArray(np)) <==> Declares(r.value, WeightsArray(np))
          ensures Declares(Commented(r.value, [QuadratureTablesSection]), PointsArray(np)) <==> Declares(r.value, PointsArray(np))
        {
          DeclaresCommented(r.value, [QuadratureTablesSection], WeightsArray(np));
          DeclaresCommented(r.value, [QuadratureTablesSection], PointsArray(np));
        }
      }
      if forall np :: np in ir.quadratureRules ==> RuleChecksPass(ir, np) {
        assert forall k :: 0 <= k < |nps| ==> RuleChecksPass(ir, nps[k]);
      }
      if forall k :: 0 <= k < |nps| ==> RuleChecksPass(ir, nps[k]) {
        forall np | np in ir.quadratureRules
          ensures RuleChecksPass(ir, np)
        {
          assert np in nps;
        }
      }
    }
  }

  /** The declarations of a run of table names: exactly those names. */
  lemma {:induction false} TableDeclsDeclare(alignas: nat, tables: map<string, seq<nat>>, names: seq<string>, sym: Symbol)
    requires forall k :: 0 <= k < |names| ==> names[k] in tables
    ensures Declares(TableDecls(alignas, tables, names), sym) <==> sym.TableName? && sym.name in names
  {
    if names != [] {
      var init := names[..|names| - 1];
      var last := names[|names| - 1];
      var decl := ArrayDecl(StaticConstDouble, TableName(last), tables[last], alignas);
      TableDeclsDeclare(alignas, tables, init, sym);
      DeclaresAppend(TableDecls(alignas, tables, init), [decl], sym);
      assert [decl][0] == decl;
      assert names == init + [last];
    }
  }

  /** A comment line declares nothing. */
  lemma CommentThenDeclares(kind: CommentKind, rest: seq<Stmt>, sym: Symbol)
    ensures Declares([Comment(kind)] + rest, sym) <==> Declares(rest, sym)
  {
    DeclaresAppend([Comment(kind)], rest, sym);
    assert !Declares([Comment(kind)], sym) by {
      assert forall k :: 0 <= k < 1 ==> [Comment(kind)][k] == Comment(kind);
    }
  }

  /** The element tables of one point count declare exactly its unique tables. */
  lemma TableGroupDeclares(ir: IR, numPoints: nat, sym: Symbol)
    requires numPoints in ir.exprIrs
    ensures Declares(TableGroup(ir, numPoints), sym)
            <==> sym.TableName? && sym.name in ir.exprIrs[numPoints].uniqueTables
  {
    var tables := ir.exprIrs[numPoints].uniqueTables;
    if |tables| == 0 {
      assert tables.Keys == {};
    } else {
      TableGroupDeclaresNonEmpty(ir, numPoints, sym);
    }
  }

  lemma TableGroupDeclaresNonEmpty(ir: IR, numPoints: nat, sym: Symbol)
    requires numPoints in ir.exprIrs && |ir.exprIrs[numPoints].uniqueTables| > 0
    ensures Declares(TableGroup(ir, numPoints), sym)
            <==> sym.TableName? && sym.name in ir.exprIrs[numPoints].uniqueTables
  {
    var tables := ir.exprIrs[numPoints].uniqueTables;
    var names := SortedNames(tables.Keys);
    var decls := TableDecls(ir.alignas, tables, names);
    assert TableGroup(ir, numPoints) == [Comment(ElementTableGroup(|tables|, numPoints))] + decls;
    TableDeclsDeclare(ir.alignas, tables, names, sym);
    CommentThenDeclares(ElementTableGroup(|tables|, numPoints), decls, sym);
  }

  /** Whether `name` is a unique table of one of the point counts `nps`. */
  predicate TableOfSome(ir: IR, nps: seq<nat>, name: string)
    requires forall k :: 0 <= k < |nps| ==> nps[k] in ir.exprIrs
  {
    exists k :: 0 <= k < |nps| && name in ir.exprIrs[nps[k]].uniqueTables
  }

  lemma TableOfSomeStep(ir: IR, nps: seq<nat>, name: string)
    requires forall k :: 0 <= k < |nps| ==> nps[k] in ir.exprIrs
    requires nps != []
    ensures TableOfSome(ir, nps, name)
            <==> TableOfSome(ir, nps[..|nps| - 1], name) || name in ir.exprIrs[nps[|nps| - 1]].uniqueTables
  {
    var init := nps[..|nps| - 1];
    if TableOfSome(ir, init, name) {
      var k :| 0 <= k < |init| && name in ir.exprIrs[init[k]].uniqueTables;
      assert nps[k] == init[k];
    }
    if TableOfSome(ir, nps, name) {
      var k :| 0 <= k < |nps| && name in ir.exprIrs[nps[k]].uniqueTables;
      if k < |init| {
        assert init[k] == nps[k];
      }
    }
  }

  /** The element tables of the point counts `nps` declare exactly the tables of those point counts. */
  lemma {:induction false} ElementTablesFoldDeclares(ir: IR, nps: seq<nat>, sym: Symbol)
    requires forall k :: 0 <= k < |nps| ==> nps[k] in ir.exprIrs
    ensures Declares(ElementTablesFold(ir, nps), sym) <==> sym.TableName? && TableOfSome(ir, nps, sym.name)
  {
    if nps != [] {
      var init := nps[..|nps| - 1];
      var last := nps[|nps| - 1];
      ElementTablesFoldDeclares(ir, init, sym);
      TableGroupDeclares(ir, last, sym);
      DeclaresAppend(ElementTablesFold(ir, init), TableGroup(ir, last), sym);
      if sym.TableName? {
        TableOfSomeStep(ir, nps, sym.name);
      }
    }
  }

  /**
   * `generate_element_tables` declares every unique table of every point
   * count, and declares nothing else.
   */
  lemma ElementTablesDeclared(ir: IR, sym: Symbol)
    ensures Declares(ElementTables(ir), sym)
            <==> sym.TableName? && exists np :: np in ir.exprIrs && sym.name in ir.exprIrs[np].uniqueTables
  {
    var nps := SortedNumPoints(ir.exprIrs.Keys);
    ElementTablesFoldDeclares(ir, nps, sym);
    DeclaresCommented(ElementTablesFold(ir, nps), [ElementTablesSection, TableDimensions], sym);
    if sym.TableName? && exists np :: np in ir.exprIrs && sym.name in ir.exprIrs[np].uniqueTables {
      var np :| np in ir.exprIrs && sym.name in ir.exprIrs[np].uniqueTables;
      assert np in nps;
      var k :| 0 <= k < |nps| && nps[k] == np;
      assert TableOfSome(ir, nps, sym.name);
    }
  }

  // ---------------------------------------------------------------------
  // generate

  /** A successful result of `n` statements, every one of them a scope. */
  predicate AllScopes(r: Result<seq<Stmt>, GenError>, n: nat)
  {
    r.Ok? ==> |r.value| == n && forall k :: 0 <= k < |r.value| ==> r.value[k].Scope?
  }

  /** With `wrap`, the loop over the point counts emits one scope per point count. */
  lemma {:induction false} PointsFoldScopes(ir: IR, b: Backend, st: GenState, nps: seq<nat>)
    requires forall k :: 0 <= k < |nps| ==>
               nps[k] in ir.exprIrs && ir.exprIrs[nps[k]].Valid() && nps[k] in st.vaccesses
    ensures var r := PointsFold(ir, b, st, nps, true).0;
            r.Ok? ==> |r.value| == |nps| && forall k :: 0 <= k < |nps| ==> r.value[k].Scope?
  {
    if nps != [] {
      PointsFoldScopes(ir, b, st, nps[..|nps| - 1]);
      PointsFoldScopesStep(ir, b, st, nps);
    }
  }

  /** One more point count adds one scope. */
  lemma PointsFoldScopesStep(ir: IR, b: Backend, st: GenState, nps: seq<nat>)
    requires nps != []
    requires forall k :: 0 <= k < |nps| ==>
               nps[k] in ir.exprIrs && ir.exprIrs[nps[k]].Valid() && nps[k] in st.vaccesses
    requires AllScopes(PointsFold(ir, b, st, nps[..|nps| - 1], true).0, |nps| - 1)
    ensures AllScopes(PointsFold(ir, b, st, nps, true).0, |nps|)
  {
    var before := PointsFold(ir, b, st, nps[..|nps| - 1], true);
    var r := PointsFold(ir, b, st, nps, true);
    if r.0.Ok? {
      var last := PointBody(ir, b, before.1, nps[|nps| - 1]);
      ScopesAfter(before.0.value, [Scope(last.0.value)]);
    }
  }

  /** The loop of `generate` visits every point count once, each with a memo ready for it. */
  lemma FreshStartReady(ir: IR, names: set<string>)
    requires ir.Valid()
    ensures var nps := SortedNumPoints(ir.exprIrs.Keys);
            |nps| == |ir.exprIrs|
            && forall k :: 0 <= k < |nps| ==>
                 nps[k] in ir.exprIrs && ir.exprIrs[nps[k]].Valid() && nps[k] in GenState(FreshMemo(ir), names).vaccesses
  {
    assert |ir.exprIrs.Keys| == |ir.exprIrs|;
  }

  /** With several point counts, `generate` emits one scope per point count. */
  lemma PointBodiesScopes(ir: IR, b: Backend, names: set<string>)
    requires ir.Valid() && |ir.exprIrs| > 1
    ensures var r := PointBodies(ir, b, names).0;
            r.Ok? ==> |r.value| == |ir.exprIrs| && forall k :: 0 <= k < |r.value| ==> r.value[k].Scope?
  {
    FreshStartReady(ir, names);
    PointsFoldScopes(ir, b, GenState(FreshMemo(ir), names), SortedNumPoints(ir.exprIrs.Keys));
  }

  /**
   * With a single point count, `generate` splices that count's body
   * directly into the output, without a scope around it.
   */
  lemma PointBodiesSingle(ir: IR, b: Backend, names: set<string>, np: nat)
    requires ir.Valid() && ir.exprIrs.Keys == {np}
    ensures PointBodies(ir, b, names).0 == PointBody(ir, b, GenState(FreshMemo(ir), names), np).0
  {
    SingleSorted(ir.exprIrs.Keys, np);
    FreshStartReady(ir, names);
    PointsFoldSingle(ir, b, GenState(FreshMemo(ir), names), np);
  }

  lemma SingleSorted(s: set<nat>, np: nat)
    requires s == {np}
    ensures SortedNumPoints(s) == [np]
  {
    assert SortedNumPoints(s)[0] in s;
  }

  /** An unwrapped fold over one point count is that point count's body. */
  lemma PointsFoldSingle(ir: IR, b: Backend, st: GenState, np: nat)
    requires Ready(ir, st, np)
    ensures PointsFold(ir, b, st, [np], false).0 == PointBody(ir, b, st, np).0
  {
    assert [np][..0] == [];
    var last := PointBody(ir, b, st, np);
    if last.0.Ok? {
      assert [] + last.0.value == last.0.value;
    }
  }

  /** `generate` is not implemented for expression integrals: it always fails for them. */
  lemma GenerateFailsForExpression(ir: IR, b: Backend, st: GenState)
    requires ir.Valid() && ir.integralType.Expression?
    ensures Generate(ir, b, st).0.Err?
  {
    if QuadratureTables(ir).Ok? && PointBodies(ir, b, st.names).0.Ok? {
      assert FinishingStatements(ir).Err?;
    }
  }

  /**
   * The statements `generate` produces do not depend on the memo the
   * generator held before: every point count starts from an empty memo.
   */
  lemma GenerateStartsAfresh(ir: IR, b: Backend, st: GenState, other: map<nat, map<nat, Expr>>)
    requires ir.Valid()
    ensures Generate(ir, b, GenState(other, st.names)).0 == Generate(ir, b, st).0
  {
    assert PointBodies(ir, b, GenState(other, st.names).names) == PointBodies(ir, b, st.names);
  }

  /** What a successful `generate` returns: the three table parts, then the point bodies. */
  lemma GenerateValue(ir: IR, b: Backend, st: GenState)
    requires ir.Valid() && Generate(ir, b, st).0.Ok?
    ensures QuadratureTables(ir).Ok? && PointBodies(ir, b, st.names).0.Ok?
    ensures Generate(ir, b, st).0.value
            == QuadratureTables(ir).value + ElementTables(ir) + TensorReset(ir.tensorShape) + PointBodies(ir, b, st.names).0.value
  {
    assert FinishingStatements(ir) == Ok([]);
    var bodies := PointBodies(ir, b, st.names).0.value;
    assert bodies + [] == bodies;
  }

  /**
   * A successful `generate`: the output starts with the quadrature tables,
   * the element tables and the tensor reset.
   */
  lemma GenerateOutcome(ir: IR, b: Backend, st: GenState)
    requires ir.Valid()
    ensures var r := Generate(ir, b, st).0;
            r.Ok? ==>
              var prefix := QuadratureTables(ir).value + ElementTables(ir) + TensorReset(ir.tensorShape);
              |prefix| <= |r.value| && r.value[..|prefix|] == prefix
  {
    if Generate(ir, b, st).0.Ok? {
      GenerateValue(ir, b, st);
      var prefix := QuadratureTables(ir).value + ElementTables(ir) + TensorReset(ir.tensorShape);
      assert (prefix + PointBodies(ir, b, st.names).0.value)[..|prefix|] == prefix;
    }
  }

  /**
   * After a successful `generate` there is one memo per point count, each
   * referring only to vertices of its own graph.
   */
  lemma GenerateMemo(ir: IR, b: Backend, st: GenState)
    requires ir.Valid()
    ensures var (r, st') := Generate(ir, b, st);
            r.Ok? ==> (forall np :: np in st'.vaccesses <==> np in ir.exprIrs) && MemoWithin(ir, st'.vaccesses)
  {
    if Generate(ir, b, st).0.Ok? {
      assert FinishingStatements(ir) == Ok([]);
      assert Generate(ir, b, st).1 == PointBodies(ir, b, st.names).1;
    }
  }

  /**
   * With several point counts, a successful `generate` follows the tensor
   * reset with exactly one scope per point count and nothing else.
   */
  lemma GenerateScopes(ir: IR, b: Backend, st: GenState)
    requires ir.Valid() && |ir.exprIrs| > 1
    ensures var r := Generate(ir, b, st).0;
            r.Ok? ==>
              var n := |QuadratureTables(ir).value + ElementTables(ir) + TensorReset(ir.tensorShape)|;
              |r.value| == n + |ir.exprIrs| && forall k :: n <= k < |r.value| ==> r.value[k].Scope?
  {
    if Generate(ir, b, st).0.Ok? {
      GenerateValue(ir, b, st);
      PointBodiesScopes(ir, b, st.names);
      ScopesAfter(QuadratureTables(ir).value + ElementTables(ir) + TensorReset(ir.tensorShape),
                  PointBodies(ir, b, st.names).0.value);
    }
  }

  /**
   * Scopes appended after any prefix are scopes at those positions; kept as
   * a lemma so that the proofs using it need not reason about `+` on
   * sequences in their larger contexts.
   */
  lemma ScopesAfter(prefix: seq<Stmt>, scopes: seq<Stmt>)
    requires forall k :: 0 <= k < |scopes| ==> scopes[k].Scope?
    ensures forall k :: |prefix| <= k < |prefix + scopes| ==> (prefix + scopes)[k].Scope?
  {
  }
}
