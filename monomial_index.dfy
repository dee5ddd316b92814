// Index algebra of the tensor representation: role-tagged summation indices,
// their evaluation against per-role bindings, offset arithmetic and the
// per-role id counters (ffc/compiler/tensor/monomialtransformation.py).
module MonomialIndices {
  import opened Base

  /** MonomialIndex.FIXED, PRIMARY, SECONDARY, INTERNAL and EXTERNAL. */
  datatype IndexType = Fixed | Primary | Secondary | Internal | External

  /**
   * One MonomialIndex object.  An index whose role has not been decided yet
   * (Python's `index_type=None`) has `indexType == None`; `indexId` is `None`
   * until one is given.  Object identity is not part of this value: the
   * transformation keeps these records in an arena and compares handles.
   */
  datatype MonomialIndex = MonomialIndex(indexType: Option<IndexType>, indexRange: seq<int>, indexId: Option<int>)

  /** Python 2's `range(n)`, a list. */
  function Range(n: nat): (r: seq<int>)
    ensures |r| == n
    ensures forall k :: 0 <= k < n ==> r[k] == k
  {
    seq(n, k => k)
  }

  /** The keyword arguments of `MonomialIndex.__call__`; `None` when not passed. */
  datatype Bindings = Bindings(
    primary: Option<seq<int>>,
    secondary: Option<seq<int>>,
    internal: Option<seq<int>>,
    external: Option<seq<int>>)

  datatype IndexError =
    | MissingIndexValues(role: IndexType)  // `error("Missing index values ...")`
    | UnknownIndexType                     // the final `else` branch
    | IndexOutOfRange                      // Python's IndexError on a list subscript
    | IdNotAnInteger                       // subscripting a list with `None`

  /** Python list subscript `s[k]`, negative `k` counting from the end. */
  function PyIndex(s: seq<int>, k: int): (r: Result<int, IndexError>)
    ensures r.Ok? <==> -|s| <= k < |s|
    ensures 0 <= k < |s| ==> r == Ok(s[k])
    ensures -|s| <= k < 0 ==> r == Ok(s[|s| + k])
    ensures r.Err? ==> r.error == IndexOutOfRange
  {
    if 0 <= k < |s| then Ok(s[k])
    else if -|s| <= k < 0 then Ok(s[|s| + k])
    else Err(IndexOutOfRange)
  }

  function BindingFor(b: Bindings, role: IndexType): Option<seq<int>>
  {
    match role
    case Fixed => None
    case Primary => b.primary
    case Secondary => b.secondary
    case Internal => b.internal
    case External => b.external
  }

  /**
   * `MonomialIndex.__call__`: a fixed index evaluates to the first entry of
   * its range; any other role looks its id up in the binding for that role,
   * which must be given and non-empty (Python's `if not primary`).
   */
  function Evaluate(i: MonomialIndex, b: Bindings): (r: Result<int, IndexError>)
    ensures i.indexType == Some(Fixed) ==>
              (r.Ok? <==> |i.indexRange| > 0) && (r.Ok? ==> r.value == i.indexRange[0])
    ensures i.indexType.None? ==> r == Err(UnknownIndexType)
    ensures i.indexType.Some? && i.indexType.value != Fixed ==>
              var values := BindingFor(b, i.indexType.value);
              (r == Err(MissingIndexValues(i.indexType.value)) <==> values.None? || values.value == [])
              && (values.Some? && i.indexId.Some? && 0 <= i.indexId.value < |values.value|
                  ==> r == Ok(values.value[i.indexId.value]))
              && (values.Some? && values.value != [] && i.indexId.Some?
                  ==> r == PyIndex(values.value, i.indexId.value))
              && (values.Some? && values.value != [] && i.indexId.None? ==> r == Err(IdNotAnInteger))
  {
    match i.indexType
    case None => Err(UnknownIndexType)
    case Some(Fixed) => PyIndex(i.indexRange, 0)
    case Some(role) =>
      var values := BindingFor(b, role);
      if values.None? || values.value == [] then Err(MissingIndexValues(role))
      else if i.indexId.None? then Err(IdNotAnInteger)
      else PyIndex(values.value, i.indexId.value)
  }

  /** `MonomialIndex.__add__`: a copy with every range entry shifted by `offset`. */
  function Add(i: MonomialIndex, offset: int): (r: MonomialIndex)
    ensures r.indexType == i.indexType && r.indexId == i.indexId
    ensures |r.indexRange| == |i.indexRange|
    ensures forall k :: 0 <= k < |i.indexRange| ==> r.indexRange[k] == i.indexRange[k] + offset
  {
    i.(indexRange := seq(|i.indexRange|, k requires 0 <= k < |i.indexRange| => offset + i.indexRange[k]))
  }

  /** `MonomialIndex.__sub__`, defined as adding the negated offset. */
  function Sub(i: MonomialIndex, offset: int): (r: MonomialIndex)
    ensures r.indexType == i.indexType && r.indexId == i.indexId
    ensures |r.indexRange| == |i.indexRange|
    ensures forall k :: 0 <= k < |i.indexRange| ==> r.indexRange[k] == i.indexRange[k] - offset
  {
    Add(i, -offset)
  }

  /** Shifting by `a` and then by `b` is shifting by `a + b`. */
  lemma AddComposes(i: MonomialIndex, a: int, b: int)
    ensures Add(Add(i, a), b) == Add(i, a + b)
  {
    assert Add(Add(i, a), b).indexRange == Add(i, a + b).indexRange;
  }

  /** Subtracting an offset undoes adding it. */
  lemma SubUndoesAdd(i: MonomialIndex, offset: int)
    ensures Sub(Add(i, offset), offset) == i
  {
    assert Sub(Add(i, offset), offset).indexRange == i.indexRange;
  }

  /**
   * Offset arithmetic moves the value of a fixed index by the offset and
   * leaves the value of every other index unchanged.
   */
  lemma EvaluateAfterAdd(i: MonomialIndex, offset: int, b: Bindings)
    ensures i.indexType == Some(Fixed) && |i.indexRange| > 0 ==>
              Evaluate(Add(i, offset), b) == Ok(Evaluate(i, b).value + offset)
    ensures i.indexType != Some(Fixed) ==> Evaluate(Add(i, offset), b) == Evaluate(i, b)
  {
  }

  /** A fixed index needs no bindings: its value is the same whatever is passed. */
  lemma FixedIgnoresBindings(i: MonomialIndex, b1: Bindings, b2: Bindings)
    requires i.indexType == Some(Fixed)
    ensures Evaluate(i, b1) == Evaluate(i, b2)
  {
  }

  /**
   * Python 2 ordering of the ids compared by `__lt__`: `None` sorts before
   * every integer.
   */
  function IdLess(a: Option<int>, b: Option<int>): bool
  {
    match (a, b)
    case (None, None) => false
    case (None, Some(_)) => true
    case (Some(_), None) => false
    case (Some(x), Some(y)) => x < y
  }

  /** `MonomialIndex.__lt__`. */
  function Less(i: MonomialIndex, j: MonomialIndex): bool
  {
    IdLess(i.indexId, j.indexId)
  }

  /**
   * `__lt__` orders indices by id alone: it is irreflexive and transitive,
   * and two indices are unordered exactly when their ids are equal.
   */
  lemma LessOrdersById(i: MonomialIndex, j: MonomialIndex, k: MonomialIndex)
    ensures !Less(i, i)
    ensures Less(i, j) && Less(j, k) ==> Less(i, k)
    ensures !Less(i, j) && !Less(j, i) <==> i.indexId == j.indexId
    ensures Less(i, j) ==> !Less(j, i)
  {
  }

  /**
   * The three module-level counters `_current_secondary_index`,
   * `_current_internal_index` and `_current_external_index`.
   */
  class IndexCounters {
    var secondary: nat
    var internal: nat
    var external: nat

    /** The counters as they are when the module is loaded. */
    constructor ()
      ensures secondary == 0 && internal == 0 && external == 0
    {
      secondary, internal, external := 0, 0, 0;
    }

    /** `reset_indices`. */
    method Reset()
      modifies this
      ensures secondary == 0 && internal == 0 && external == 0
    {
      secondary, internal, external := 0, 0, 0;
    }

    /** `next_secondary_index`: hands out the current value, then advances it. */
    method NextSecondary() returns (id: nat)
      modifies this
      ensures id == old(secondary) && secondary == old(secondary) + 1
      ensures internal == old(internal) && external == old(external)
    {
      secondary := secondary + 1;
      id := secondary - 1;
    }

    /** `next_internal_index`. */
    method NextInternal() returns (id: nat)
      modifies this
      ensures id == old(internal) && internal == old(internal) + 1
      ensures secondary == old(secondary) && external == old(external)
    {
      internal := internal + 1;
      id := internal - 1;
    }

    /** `next_external_index`. */
    method NextExternal() returns (id: nat)
      modifies this
      ensures id == old(external) && external == old(external) + 1
      ensures secondary == old(secondary) && internal == old(internal)
    {
      external := external + 1;
      id := external - 1;
    }
  }

  /**
   * After `reset_indices`, `n` successive draws from the counter of one
   * role (`next_secondary_index`, `next_internal_index` or
   * `next_external_index`) hand out 0, 1, ..., n - 1 and leave the other
   * two counters at 0.
   */
  method DrawAfterReset(c: IndexCounters, role: IndexType, n: nat) returns (ids: seq<nat>)
    requires role in {Secondary, Internal, External}
    modifies c
    ensures ids == seq(n, k => k)
    ensures c.secondary == (if role == Secondary then n else 0)
    ensures c.internal == (if role == Internal then n else 0)
    ensures c.external == (if role == External then n else 0)
  {
    c.Reset();
    ids := [];
    while |ids| < n
      invariant |ids| <= n
      invariant ids == seq(|ids|, k => k)
      invariant c.secondary == (if role == Secondary then |ids| else 0)
      invariant c.internal == (if role == Internal then |ids| else 0)
      invariant c.external == (if role == External then |ids| else 0)
    {
      var id: nat;
      if role == Secondary {
        id := c.NextSecondary();
      } else if role == Internal {
        id := c.NextInternal();
      } else {
        id := c.NextExternal();
      }
      ids := ids + [id];
    }
  }
}
