// TransformedMonomial: resolution of one monomial of a multilinear form into
// reference-element form (ffc/compiler/tensor/monomialtransformation.py).
//
// Every MonomialIndex object the Python code creates is a record in an
// arena `indices: seq<MonomialIndex>`; a `Handle` is a position in that
// arena and stands for the object's identity.  "The same index instance"
// is "the same handle", and the in-place assignment of `index_type` and
// `index_id` during classification is an update of the arena at a handle.
module MonomialTransformation {
  import opened Base
  import opened MonomialIndices

  type Handle = nat

  // ---------------------------------------------------------------------
  // Input: the monomial and what the element provider says about each factor.

  /** The values of `mapping()`: AFFINE, CONTRAVARIANT_PIOLA, COVARIANT_PIOLA. */
  datatype Mapping = Affine | ContravariantPiola | CovariantPiola

  /** `element.component_element(c)`: the sub-element's mapping and the component offset. */
  datatype ComponentElement = ComponentElement(mapping: Mapping, offset: int)

  /**
   * What `create_element(f.element())` provides: `value_dimension(0)`,
   * `space_dimension()`, `geometric_dimension()` and `component_element`
   * (a component the element does not have is not in the map).
   */
  datatype Element = Element(
    valueDimension: nat,
    spaceDimension: nat,
    geometricDimension: nat,
    componentElements: map<int, ComponentElement>)

  /** `f.function`: a BasisFunction (an argument) or a Function (a coefficient), with its `count()`. */
  datatype FunctionRef = BasisFunctionRef(count: int) | CoefficientRef(count: int)

  /** A UFL component or derivative index: a FixedIndex with its value, or a free Index. */
  datatype UflIndex = FixedIndex(value: int) | FreeIndex(count: int)

  /** `f.restriction`: None, "+" or "-". */
  datatype Restriction = Unrestricted | PlusSide | MinusSide

  datatype Factor = Factor(
    element: Element,
    functionRef: FunctionRef,
    components: seq<UflIndex>,
    derivatives: seq<UflIndex>,
    restriction: Restriction)

  datatype Monomial = Monomial(floatValue: real, factors: seq<Factor>)

  // ---------------------------------------------------------------------
  // Output.

  datatype MonomialError =
    | RankError          // "Can only handle rank 0 or rank 1 tensors."
    | MappingConflict    // "Unable to handle different mappings for index range."
    | EmptyComponentRange  // `component.index_range[0]` on an empty range
    | UnknownComponent   // `component_element` asked for a component the element lacks
    | ContractionError   // "Summation index does not appear exactly twice"

  datatype MonomialCoefficient = MonomialCoefficient(index: Handle, number: int)

  datatype TransformType = J | JInv

  datatype MonomialTransform = MonomialTransform(
    index0: Handle,
    index1: Handle,
    transformType: TransformType,
    restriction: Restriction,
    offset: int)

  datatype MonomialBasisFunction = MonomialBasisFunction(
    element: Element,
    index: Handle,
    components: seq<Handle>,
    derivatives: seq<Handle>,
    restriction: Restriction)

  /** `MonomialDeterminant`: its power starts at 0. */
  datatype MonomialDeterminant = MonomialDeterminant(power: int)

  datatype TransformedMonomial = TransformedMonomial(
    floatValue: real,
    determinant: MonomialDeterminant,
    coefficients: seq<MonomialCoefficient>,
    transforms: seq<MonomialTransform>,
    basisFunctions: seq<MonomialBasisFunction>,
    indices: seq<MonomialIndex>)
  {
    /** Every handle the monomial holds refers into its arena. */
    predicate WellFormed()
    {
      AllHandlesIn(coefficients, transforms, basisFunctions, |indices|)
    }
  }

  // ---------------------------------------------------------------------
  // Handle bookkeeping.

  predicate HandlesIn(hs: seq<Handle>, n: nat)
  {
    forall k :: 0 <= k < |hs| ==> hs[k] < n
  }

  predicate MapIn(m: map<UflIndex, Handle>, n: nat)
  {
    forall key :: key in m ==> m[key] < n
  }

  predicate TransformsIn(ts: seq<MonomialTransform>, n: nat)
  {
    forall k :: 0 <= k < |ts| ==> ts[k].index0 < n && ts[k].index1 < n
  }

  predicate AllHandlesIn(cs: seq<MonomialCoefficient>, ts: seq<MonomialTransform>, vs: seq<MonomialBasisFunction>, n: nat)
  {
    (forall k :: 0 <= k < |cs| ==> cs[k].index < n)
    && TransformsIn(ts, n)
    && (forall k :: 0 <= k < |vs| ==>
          vs[k].index < n && HandlesIn(vs[k].components, n) && HandlesIn(vs[k].derivatives, n))
  }

  /** Before classification only FIXED and PRIMARY indices have a role. */
  predicate Unclassified(indices: seq<MonomialIndex>)
  {
    forall k :: 0 <= k < |indices| ==> indices[k].indexType in {None, Some(Fixed), Some(Primary)}
  }

  // ---------------------------------------------------------------------
  // MonomialTransform.__init__

  /**
   * One endpoint of a new transform: a FIXED index is replaced by a new
   * instance `index - offset`; any other index is kept as the same instance.
   */
  function TransformEndpoint(indices: seq<MonomialIndex>, h: Handle, offset: int): (r: (seq<MonomialIndex>, Handle))
    requires h < |indices|
    ensures indices <= r.0 && r.1 < |r.0|
    ensures indices[h].indexType != Some(Fixed) ==> r == (indices, h)
    ensures indices[h].indexType == Some(Fixed) ==>
              r.1 == |indices| && r.0 == indices + [Sub(indices[h], offset)]
  {
    if indices[h].indexType == Some(Fixed) then (indices + [Sub(indices[h], offset)], |indices|)
    else (indices, h)
  }

  /** `MonomialTransform(index0, index1, transform_type, restriction, offset)`. */
  function NewTransform(indices: seq<MonomialIndex>, h0: Handle, h1: Handle, transformType: TransformType,
                        restriction: Restriction, offset: int): (r: (seq<MonomialIndex>, MonomialTransform))
    requires h0 < |indices| && h1 < |indices|
    ensures indices <= r.0 && r.1.index0 < |r.0| && r.1.index1 < |r.0|
    ensures r.1.transformType == transformType && r.1.restriction == restriction && r.1.offset == offset
    ensures Unclassified(indices) ==> Unclassified(r.0)
  {
    var (ix0, e0) := TransformEndpoint(indices, h0, offset);
    var (ix1, e1) := TransformEndpoint(ix0, h1, offset);
    (ix1, MonomialTransform(e0, e1, transformType, restriction, offset))
  }

  /**
   * The endpoints of a new transform are `TransformEndpoint`'s: a FIXED
   * endpoint becomes a new `- offset` copy of the original index (taken
   * from the original even when both endpoints are the same index), any
   * other endpoint is the same instance.
   */
  lemma NewTransformEndpoints(indices: seq<MonomialIndex>, h0: Handle, h1: Handle, transformType: TransformType,
                              restriction: Restriction, offset: int)
    requires h0 < |indices| && h1 < |indices|
    ensures var r := NewTransform(indices, h0, h1, transformType, restriction, offset);
            (indices[h0].indexType != Some(Fixed) ==> r.1.index0 == h0)
            && (indices[h0].indexType == Some(Fixed) ==>
                  r.1.index0 == |indices| && r.0[r.1.index0] == Sub(indices[h0], offset))
            && (indices[h1].indexType != Some(Fixed) ==> r.1.index1 == h1)
            && (indices[h1].indexType == Some(Fixed) ==>
                  |indices| <= r.1.index1 && r.0[r.1.index1] == Sub(indices[h1], offset))
            && |r.0| == |indices| + (if indices[h0].indexType == Some(Fixed) then 1 else 0)
                                   + (if indices[h1].indexType == Some(Fixed) then 1 else 0)
  {
    var (ix0, e0) := TransformEndpoint(indices, h0, offset);
    assert ix0[h1] == indices[h1];
  }

  // ---------------------------------------------------------------------
  // Resolution of component and derivative indices through `index_map`.

  datatype Resolution = Resolution(indices: seq<MonomialIndex>, indexMap: map<UflIndex, Handle>)
  {
    predicate Valid() { MapIn(indexMap, |indices|) }
  }

  /**
   * One lookup in `index_map`: a key seen before gets the very instance it
   * got then; a new FixedIndex gets a FIXED index holding its value (with
   * that value as id when `fixedId`), a new free index a fresh index with
   * range `freshRange`.  The key then maps to the result.
   */
  function ResolveIndex(key: UflIndex, st: Resolution, freshRange: seq<int>, fixedId: bool): (r: (Resolution, Handle))
    requires st.Valid()
    ensures r.0.Valid() && r.1 < |r.0.indices| && st.indices <= r.0.indices
    ensures r.0.indexMap == st.indexMap[key := r.1]
    ensures key in st.indexMap ==> r == (st, st.indexMap[key])
    ensures key !in st.indexMap ==>
              r.1 == |st.indices| && |r.0.indices| == |st.indices| + 1
              && r.0.indices[r.1].indexType == (if key.FixedIndex? then Some(Fixed) else None)
    ensures Unclassified(st.indices) ==> Unclassified(r.0.indices)
  {
    if key in st.indexMap then
      assert st.indexMap[key := st.indexMap[key]] == st.indexMap;
      (st, st.indexMap[key])
    else
      var index := match key
        case FixedIndex(v) => MonomialIndex(Some(Fixed), [v], if fixedId then Some(v) else None)
        case FreeIndex(_) => MonomialIndex(None, freshRange, None);
      var h := |st.indices|;
      (Resolution(st.indices + [index], st.indexMap[key := h]), h)
  }

  /** The component indices of one factor, resolved left to right (`_extract_components`). */
  function ResolvedComponents(keys: seq<UflIndex>, st: Resolution, freshRange: seq<int>): (r: (Resolution, seq<Handle>))
    requires st.Valid()
    ensures r.0.Valid() && st.indices <= r.0.indices && |r.1| == |keys| && HandlesIn(r.1, |r.0.indices|)
    ensures Unclassified(st.indices) ==> Unclassified(r.0.indices)
    decreases |keys|
  {
    if keys == [] then (st, [])
    else
      var (st1, hs) := ResolvedComponents(keys[..|keys| - 1], st, freshRange);
      var (st2, h) := ResolveIndex(keys[|keys| - 1], st1, freshRange, false);
      (st2, hs + [h])
  }

  /**
   * After resolving the components, `index_map` holds each component key,
   * bound to that component's handle, and the keys it held before keep
   * their entries.
   */
  lemma {:induction false} ResolvedComponentsMap(keys: seq<UflIndex>, st: Resolution, freshRange: seq<int>)
    requires st.Valid()
    ensures var r := ResolvedComponents(keys, st, freshRange);
            forall k :: 0 <= k < |keys| ==> keys[k] in r.0.indexMap && r.1[k] == r.0.indexMap[keys[k]]
    ensures var r := ResolvedComponents(keys, st, freshRange);
            forall key :: key in st.indexMap ==> key in r.0.indexMap && r.0.indexMap[key] == st.indexMap[key]
    decreases |keys|
  {
    if keys != [] {
      var init := keys[..|keys| - 1];
      ResolvedComponentsMap(init, st, freshRange);
      var (st1, hs) := ResolvedComponents(init, st, freshRange);
      var (st2, h) := ResolveIndex(keys[|keys| - 1], st1, freshRange, false);
      forall k | 0 <= k < |keys|
        ensures keys[k] in st2.indexMap && (hs + [h])[k] == st2.indexMap[keys[k]]
      {
        if k < |init| {
          assert keys[k] == init[k];
        }
      }
    }
  }

  /** Resolving the components adds no key to `index_map` but component keys. */
  lemma {:induction false} ResolvedComponentsNewKeys(keys: seq<UflIndex>, st: Resolution, freshRange: seq<int>)
    requires st.Valid()
    ensures var r := ResolvedComponents(keys, st, freshRange);
            forall key :: key in r.0.indexMap ==> key in st.indexMap || key in keys
    decreases |keys|
  {
    if keys != [] {
      var init := keys[..|keys| - 1];
      ResolvedComponentsNewKeys(init, st, freshRange);
      var st2 := ResolvedComponents(keys, st, freshRange).0;
      forall key | key in st2.indexMap
        ensures key in st.indexMap || key in keys
      {
        if key !in st.indexMap && key != keys[|keys| - 1] {
          var k :| 0 <= k < |init| && init[k] == key;
          assert keys[k] == key;
        }
      }
    }
  }

  /** `_extract_components(f, index_map, vdim)`. */
  method ExtractComponents(keys: seq<UflIndex>, indices: seq<MonomialIndex>, indexMap: map<UflIndex, Handle>, vdim: nat)
    returns (indices': seq<MonomialIndex>, indexMap': map<UflIndex, Handle>, components: seq<Handle>)
    requires Resolution(indices, indexMap).Valid()
    ensures (Resolution(indices', indexMap'), components)
            == ResolvedComponents(keys, Resolution(indices, indexMap), Range(vdim))
  {
    indices', indexMap', components := indices, indexMap, [];
    var k := 0;
    while k < |keys|
      invariant 0 <= k <= |keys|
      invariant (Resolution(indices', indexMap'), components)
                == ResolvedComponents(keys[..k], Resolution(indices, indexMap), Range(vdim))
    {
      assert keys[..k + 1][..k] == keys[..k];
      var c := keys[k];
      var index: Handle;
      if c in indexMap' {
        index := indexMap'[c];
      } else if c.FixedIndex? {
        index := |indices'|;
        indices' := indices' + [MonomialIndex(Some(Fixed), [c.value], None)];
      } else {
        index := |indices'|;
        indices' := indices' + [MonomialIndex(None, Range(vdim), None)];
      }
      indexMap' := indexMap'[c := index];
      components := components + [index];
      k := k + 1;
    }
    assert keys[..k] == keys;
  }

  // ---------------------------------------------------------------------
  // Non-affine mappings (Piola).

  datatype Mapped = Mapped(indices: seq<MonomialIndex>, components: seq<Handle>, power: int, transforms: seq<MonomialTransform>)

  lemma FirstComponentKnown(range: seq<int>, ce: map<int, ComponentElement>)
    requires |range| > 0 && forall c: int :: c in range ==> c in ce
    ensures range[0] in ce
  {
    var c := range[0];
    assert c in range;
  }

  /** Some component of `range` belongs to a sub-element whose mapping differs from the first one's. */
  predicate MixedMappings(range: seq<int>, ce: map<int, ComponentElement>)
    requires |range| > 0 && forall c: int :: c in range ==> c in ce
  {
    FirstComponentKnown(range, ce);
    var first := ce[range[0]].mapping;
    exists c: int :: c in range && ce[c].mapping != first
  }

  /**
   * What the Piola step leaves behind for a component whose sub-element is
   * `sub`: for a contravariant mapping one more J transform ending at a new
   * index `range(gdim) + offset` that takes the component's place, and the
   * determinant power lowered by one; for a covariant mapping one more JINV
   * transform starting at such a new index, power unchanged; for an affine
   * mapping nothing new.  The component stays the transform's other
   * endpoint unless it is FIXED.
   */
  predicate PiolaOutcome(sub: ComponentElement, gdim: nat, component: Handle, indices: seq<MonomialIndex>,
                         restriction: Restriction, power: int, transforms: seq<MonomialTransform>, m: Mapped)
    requires component < |indices|
  {
    var physical := Add(MonomialIndex(None, Range(gdim), None), sub.offset);
    var notFixed := indices[component].indexType != Some(Fixed);
    match sub.mapping
    case Affine => m == Mapped(indices, [component], power, transforms)
    case ContravariantPiola =>
      m.power == power - 1
      && |m.transforms| == |transforms| + 1 && m.transforms[..|transforms|] == transforms
      && m.components == [|indices|] && |indices| < |m.indices| && m.indices[|indices|] == physical
      && m.transforms[|transforms|].transformType == J
      && m.transforms[|transforms|].index1 == |indices|
      && m.transforms[|transforms|].offset == sub.offset
      && m.transforms[|transforms|].restriction == restriction
      && (notFixed ==> m.transforms[|transforms|].index0 == component)
    case CovariantPiola =>
      m.power == power
      && |m.transforms| == |transforms| + 1 && m.transforms[..|transforms|] == transforms
      && m.components == [|indices|] && |indices| < |m.indices| && m.indices[|indices|] == physical
      && m.transforms[|transforms|].transformType == JInv
      && m.transforms[|transforms|].index0 == |indices|
      && m.transforms[|transforms|].offset == sub.offset
      && m.transforms[|transforms|].restriction == restriction
      && (notFixed ==> m.transforms[|transforms|].index1 == component)
  }

  /**
   * The Piola step of one factor, for at most one resolved component.  A
   * contravariant mapping adds a J transform from the component to a new
   * physical index (range `range(gdim) + offset`), lowers the determinant
   * power by one and puts the new index in place of the component; a
   * covariant mapping adds a JINV transform from a new index to the
   * component and puts the new index in its place; an affine mapping
   * changes nothing.  A component whose range spans sub-elements with
   * different mappings is rejected.
   */
  function MapComponent(element: Element, components: seq<Handle>, indices: seq<MonomialIndex>,
                        restriction: Restriction, power: int, transforms: seq<MonomialTransform>): (r: Result<Mapped, MonomialError>)
    requires |components| <= 1 && HandlesIn(components, |indices|)
    ensures components == [] ==> r == Ok(Mapped(indices, components, power, transforms))
    ensures r.Ok? ==>
              indices <= r.value.indices && |r.value.components| == |components|
              && HandlesIn(r.value.components, |r.value.indices|)
              && (Unclassified(indices) ==> Unclassified(r.value.indices))
              && (TransformsIn(transforms, |indices|) ==> TransformsIn(r.value.transforms, |r.value.indices|))
    ensures components != [] && |indices[components[0]].indexRange| > 1
            && (forall c: int :: c in indices[components[0]].indexRange ==> c in element.componentElements)
            ==> (r == Err(MappingConflict)
                 <==> MixedMappings(indices[components[0]].indexRange, element.componentElements))
    ensures r.Ok? && components != [] ==>
              var range := indices[components[0]].indexRange;
              |range| > 0 && range[0] in element.componentElements
              && PiolaOutcome(element.componentElements[range[0]], element.geometricDimension, components[0],
                              indices, restriction, power, transforms, r.value)
  {
    if components == [] then Ok(Mapped(indices, components, power, transforms))
    else
      var component := components[0];
      var range := indices[component].indexRange;
      var ce := element.componentElements;
      if |range| > 1 && !(forall c: int :: c in range ==> c in ce) then Err(UnknownComponent)
      else if |range| > 1 && MixedMappings(range, ce) then Err(MappingConflict)
      else if |range| == 0 then Err(EmptyComponentRange)
      else if range[0] !in ce then Err(UnknownComponent)
      else
        var sub := ce[range[0]];
        var physical := Add(MonomialIndex(None, Range(element.geometricDimension), None), sub.offset);
        match sub.mapping
        case ContravariantPiola =>
          var h1 := |indices|;
          var (ix, t) := NewTransform(indices + [physical], component, h1, J, restriction, sub.offset);
          Ok(Mapped(ix, [h1], power - 1, transforms + [t]))
        case CovariantPiola =>
          var h0 := |indices|;
          var (ix, t) := NewTransform(indices + [physical], h0, component, JInv, restriction, sub.offset);
          Ok(Mapped(ix, [h0], power, transforms + [t]))
        case Affine => Ok(Mapped(indices, components, power, transforms))
  }

  // ---------------------------------------------------------------------
  // Derivatives.

  datatype DerivativeState = DerivativeState(
    indices: seq<MonomialIndex>,
    indexMap: map<UflIndex, Handle>,
    transforms: seq<MonomialTransform>,
    derivatives: seq<Handle>)
  {
    predicate Valid()
    {
      MapIn(indexMap, |indices|) && TransformsIn(transforms, |indices|) && HandlesIn(derivatives, |indices|)
    }
  }

  /**
   * One derivative direction `d`: a fresh reference index `index0` with
   * range `range(gdim)`, the direction `index1` resolved through
   * `index_map`, and a JINV transform with offset 0 between them.
   */
  function DerivativeStep(d: UflIndex, st: DerivativeState, gdim: nat, restriction: Restriction): (r: DerivativeState)
    requires st.Valid()
    ensures r.Valid() && st.indices <= r.indices
    ensures Unclassified(st.indices) ==> Unclassified(r.indices)
    ensures |st.indices| < |r.indices| && r.indices[|st.indices|] == MonomialIndex(None, Range(gdim), None)
    ensures r.derivatives == st.derivatives + [|st.indices|]
    ensures |r.transforms| == |st.transforms| + 1 && r.transforms[..|st.transforms|] == st.transforms
    ensures var t := r.transforms[|st.transforms|];
            t.transformType == JInv && t.offset == 0 && t.restriction == restriction && t.index0 == |st.indices|
  {
    var h0 := |st.indices|;
    var (res, h1) := ResolveIndex(d, Resolution(st.indices + [MonomialIndex(None, Range(gdim), None)], st.indexMap), Range(gdim), true);
    var (ix, t) := NewTransform(res.indices, h0, h1, JInv, restriction, 0);
    DerivativeState(ix, res.indexMap, st.transforms + [t], st.derivatives + [h0])
  }

  /**
   * How a derivative direction is resolved: a key already in `index_map`
   * keeps its instance, a new key maps to one new index (FIXED with its
   * value as range and id, or untyped over `range(gdim)`), and the JINV
   * transform's `index1` is that instance, or its `- 0` copy when FIXED.
   */
  lemma DerivativeIndexResolved(d: UflIndex, st: DerivativeState, gdim: nat, restriction: Restriction)
    requires st.Valid()
    ensures var r := DerivativeStep(d, st, gdim, restriction);
            r.indexMap == st.indexMap[d := if d in st.indexMap then st.indexMap[d] else |st.indices| + 1]
    ensures var r := DerivativeStep(d, st, gdim, restriction);
            d !in st.indexMap ==>
              |st.indices| + 1 < |r.indices|
              && r.indices[|st.indices| + 1] == (match d
                                                  case FixedIndex(v) => MonomialIndex(Some(Fixed), [v], Some(v))
                                                  case FreeIndex(_) => MonomialIndex(None, Range(gdim), None))
    ensures var r := DerivativeStep(d, st, gdim, restriction);
            var h1 := r.indexMap[d];
            var t := r.transforms[|st.transforms|];
            h1 < |r.indices|
            && (r.indices[h1].indexType != Some(Fixed) ==> t.index1 == h1)
            && (r.indices[h1].indexType == Some(Fixed) ==>
                  t.index1 == |r.indices| - 1 && r.indices[t.index1] == Sub(r.indices[h1], 0))
  {
    var h0 := |st.indices|;
    var (res, h1) := ResolveIndex(d, Resolution(st.indices + [MonomialIndex(None, Range(gdim), None)], st.indexMap), Range(gdim), true);
    NewTransformEndpoints(res.indices, h0, h1, JInv, restriction, 0);
  }

  /** The derivative loop of one factor, left to right. */
  function DerivativeTransforms(keys: seq<UflIndex>, st: DerivativeState, gdim: nat, restriction: Restriction): (r: DerivativeState)
    requires st.Valid()
    ensures r.Valid() && st.indices <= r.indices
    ensures Unclassified(st.indices) ==> Unclassified(r.indices)
    decreases |keys|
  {
    if keys == [] then st
    else DerivativeStep(keys[|keys| - 1], DerivativeTransforms(keys[..|keys| - 1], st, gdim, restriction), gdim, restriction)
  }

  /** One iteration of the loop over `f.derivatives`: the derivative direction `d`. */
  method ExtractDerivative(d: UflIndex, st: DerivativeState, gdim: nat, restriction: Restriction)
    returns (r: DerivativeState)
    requires st.Valid()
    ensures r == DerivativeStep(d, st, gdim, restriction)
  {
    var indices, indexMap := st.indices, st.indexMap;
    var index0 := |indices|;
    indices := indices + [MonomialIndex(None, Range(gdim), None)];
    ghost var resolved := ResolveIndex(d, Resolution(indices, indexMap), Range(gdim), true);
    var index1: Handle;
    if d in indexMap {
      index1 := indexMap[d];
    } else if d.FixedIndex? {
      index1 := |indices|;
      indices := indices + [MonomialIndex(Some(Fixed), [d.value], Some(d.value))];
    } else {
      index1 := |indices|;
      indices := indices + [MonomialIndex(None, Range(gdim), None)];
    }
    indexMap := indexMap[d := index1];
    assert (Resolution(indices, indexMap), index1) == resolved;
    var (indices', transform) := NewTransform(indices, index0, index1, JInv, restriction, 0);
    r := DerivativeState(indices', indexMap, st.transforms + [transform], st.derivatives + [index0]);
  }

  /** The loop over `f.derivatives` in `TransformedMonomial.__init__`. */
  method ExtractDerivatives(keys: seq<UflIndex>, st: DerivativeState, gdim: nat, restriction: Restriction)
    returns (r: DerivativeState)
    requires st.Valid()
    ensures r == DerivativeTransforms(keys, st, gdim, restriction)
  {
    r := st;
    for k := 0 to |keys|
      invariant r == DerivativeTransforms(keys[..k], st, gdim, restriction)
    {
      assert keys[..k + 1][..k] == keys[..k];
      r := ExtractDerivative(keys[k], r, gdim, restriction);
    }
    assert keys[..|keys|] == keys;
  }

  // ---------------------------------------------------------------------
  // The factor loop of TransformedMonomial.__init__.

  datatype Builder = Builder(
    indices: seq<MonomialIndex>,
    indexMap: map<UflIndex, Handle>,
    power: int,
    coefficients: seq<MonomialCoefficient>,
    transforms: seq<MonomialTransform>,
    basisFunctions: seq<MonomialBasisFunction>)
  {
    predicate WellFormed()
    {
      MapIn(indexMap, |indices|)
      && AllHandlesIn(coefficients, transforms, basisFunctions, |indices|)
      && Unclassified(indices)
    }
  }

  /**
   * The value index of a factor: a PRIMARY index with the argument's
   * number as id, or a fresh untyped index registered as a coefficient.
   */
  function ValueIndex(fn: FunctionRef, sdim: nat, indices: seq<MonomialIndex>, coefficients: seq<MonomialCoefficient>)
    : (r: (seq<MonomialIndex>, Handle, seq<MonomialCoefficient>))
    requires Unclassified(indices) && AllHandlesIn(coefficients, [], [], |indices|)
    ensures indices <= r.0 && r.1 == |indices| && |r.0| == |indices| + 1
    ensures fn.BasisFunctionRef? ==>
              r.0[r.1] == MonomialIndex(Some(Primary), Range(sdim), Some(fn.count)) && r.2 == coefficients
    ensures fn.CoefficientRef? ==>
              r.0[r.1] == MonomialIndex(None, Range(sdim), None)
              && r.2 == coefficients + [MonomialCoefficient(r.1, fn.count)]
    ensures Unclassified(r.0) && AllHandlesIn(r.2, [], [], |r.0|)
  {
    match fn
    case BasisFunctionRef(n) => (indices + [MonomialIndex(Some(Primary), Range(sdim), Some(n))], |indices|, coefficients)
    case CoefficientRef(n) => (indices + [MonomialIndex(None, Range(sdim), None)], |indices|, coefficients + [MonomialCoefficient(|indices|, n)])
  }

  /** Handles valid in an arena stay valid when the arena grows. */
  lemma AllHandlesGrow(cs: seq<MonomialCoefficient>, ts: seq<MonomialTransform>, vs: seq<MonomialBasisFunction>, n: nat, n': nat)
    requires AllHandlesIn(cs, ts, vs, n) && n <= n'
    ensures AllHandlesIn(cs, ts, vs, n')
  {
    forall k | 0 <= k < |vs|
      ensures vs[k].index < n' && HandlesIn(vs[k].components, n') && HandlesIn(vs[k].derivatives, n')
    {
    }
  }

  /** The builder after one factor is well formed once its parts are. */
  lemma FactorBuilderWellFormed(d: DerivativeState, power: int, coefficients: seq<MonomialCoefficient>,
                                basisFunctions: seq<MonomialBasisFunction>, v: MonomialBasisFunction)
    requires d.Valid() && Unclassified(d.indices)
    requires AllHandlesIn(coefficients, [], basisFunctions, |d.indices|)
    requires v.index < |d.indices| && HandlesIn(v.components, |d.indices|) && HandlesIn(v.derivatives, |d.indices|)
    ensures Builder(d.indices, d.indexMap, power, coefficients, d.transforms, basisFunctions + [v]).WellFormed()
  {
    var vs := basisFunctions + [v];
    forall k | 0 <= k < |vs|
      ensures vs[k].index < |d.indices| && HandlesIn(vs[k].components, |d.indices|) && HandlesIn(vs[k].derivatives, |d.indices|)
    {
      if k < |basisFunctions| {
        assert vs[k] == basisFunctions[k];
      }
    }
  }

  /** The body of the factor loop for one factor. */
  function FactorStep(f: Factor, b: Builder): (r: Result<Builder, MonomialError>)
    requires b.WellFormed()
    ensures r.Ok? ==> r.value.WellFormed() && b.indices <= r.value.indices
  {
    var element := f.element;
    var (ix, vindex, coefficients) := ValueIndex(f.functionRef, element.spaceDimension, b.indices, b.coefficients);
    var (st, components) := ResolvedComponents(f.components, Resolution(ix, b.indexMap), Range(element.valueDimension));
    if |components| > 1 then Err(RankError)
    else
      AllHandlesGrow(coefficients, b.transforms, b.basisFunctions, |ix|, |st.indices|);
      match MapComponent(element, components, st.indices, f.restriction, b.power, b.transforms)
      case Err(e) => Err(e)
      case Ok(p) =>
        AllHandlesGrow(coefficients, [], b.basisFunctions, |st.indices|, |p.indices|);
        Ok(FactorDerivatives(f, vindex, coefficients, b.basisFunctions, p, st.indexMap))
  }

  /**
   * The rest of the factor loop body once the component is mapped: the
   * derivative transforms, then the basis function of the factor.
   */
  function FactorDerivatives(f: Factor, vindex: Handle, coefficients: seq<MonomialCoefficient>,
                             basisFunctions: seq<MonomialBasisFunction>, p: Mapped, indexMap: map<UflIndex, Handle>)
    : (r: Builder)
    requires MapIn(indexMap, |p.indices|) && TransformsIn(p.transforms, |p.indices|) && Unclassified(p.indices)
    requires AllHandlesIn(coefficients, [], basisFunctions, |p.indices|)
    requires vindex < |p.indices| && HandlesIn(p.components, |p.indices|)
    ensures r.WellFormed() && p.indices <= r.indices
  {
    var d := DerivativeTransforms(f.derivatives, DerivativeState(p.indices, indexMap, p.transforms, []),
                                  f.element.geometricDimension, f.restriction);
    AllHandlesGrow(coefficients, [], basisFunctions, |p.indices|, |d.indices|);
    var v := MonomialBasisFunction(f.element, vindex, p.components, d.derivatives, f.restriction);
    FactorBuilderWellFormed(d, p.power, coefficients, basisFunctions, v);
    Builder(d.indices, d.indexMap, p.power, coefficients, d.transforms, basisFunctions + [v])
  }

  /** The factor loop over a prefix of the factors. */
  function Factors(fs: seq<Factor>): (r: Result<Builder, MonomialError>)
    ensures r.Ok? ==> r.value.WellFormed()
    decreases |fs|
  {
    if fs == [] then Ok(Builder([], map[], 0, [], [], []))
    else
      match Factors(fs[..|fs| - 1])
      case Err(e) => Err(e)
      case Ok(b) => FactorStep(fs[|fs| - 1], b)
  }

  // ---------------------------------------------------------------------
  // extract_*_indices

  /** `[v.index] + v.components + v.derivatives` for every basis function, in order. */
  function InternalAll(vs: seq<MonomialBasisFunction>): (r: seq<Handle>)
    decreases |vs|
  {
    if vs == [] then []
    else InternalAll(vs[..|vs| - 1]) + ([vs[|vs| - 1].index] + vs[|vs| - 1].components + vs[|vs| - 1].derivatives)
  }

  /** Coefficient indices, then every transform's `index0`, then every `index1`. */
  function ExternalAll(cs: seq<MonomialCoefficient>, ts: seq<MonomialTransform>): (r: seq<Handle>)
  {
    seq(|cs|, k requires 0 <= k < |cs| => cs[k].index)
    + seq(|ts|, k requires 0 <= k < |ts| => ts[k].index0)
    + seq(|ts|, k requires 0 <= k < |ts| => ts[k].index1)
  }

  /** The list comprehension `[i for i in indices if i.index_type == index_type]`. */
  function OfType(hs: seq<Handle>, indices: seq<MonomialIndex>, t: Option<IndexType>): (r: seq<Handle>)
    requires HandlesIn(hs, |indices|)
    ensures forall h :: h in r <==> h in hs && indices[h].indexType == t
    ensures HandlesIn(r, |indices|)
    decreases |hs|
  {
    if hs == [] then []
    else
      var last := hs[|hs| - 1];
      assert hs == hs[..|hs| - 1] + [last];
      OfType(hs[..|hs| - 1], indices, t) + (if indices[last].indexType == t then [last] else [])
  }

  /** Filtering by type keeps every occurrence of an index of that type and none of the others. */
  lemma {:induction false} OfTypeOccurrences(hs: seq<Handle>, indices: seq<MonomialIndex>, t: Option<IndexType>, h: Handle)
    requires HandlesIn(hs, |indices|)
    ensures multiset(OfType(hs, indices, t))[h]
            == if h < |indices| && indices[h].indexType == t then multiset(hs)[h] else 0
    decreases |hs|
  {
    if hs != [] {
      var init := hs[..|hs| - 1];
      assert hs == init + [hs[|hs| - 1]];
      OfTypeOccurrences(init, indices, t, h);
    }
  }

  lemma InternalAllIn(vs: seq<MonomialBasisFunction>, n: nat)
    requires forall k :: 0 <= k < |vs| ==>
               vs[k].index < n && HandlesIn(vs[k].components, n) && HandlesIn(vs[k].derivatives, n)
    ensures HandlesIn(InternalAll(vs), n)
    decreases |vs|
  {
    if vs != [] {
      InternalAllIn(vs[..|vs| - 1], n);
    }
  }

  /** `extract_internal_indices(index_type)` on the parts of a monomial. */
  function InternalIndices(vs: seq<MonomialBasisFunction>, indices: seq<MonomialIndex>, t: Option<IndexType>): (r: seq<Handle>)
    requires forall k :: 0 <= k < |vs| ==>
               vs[k].index < |indices| && HandlesIn(vs[k].components, |indices|) && HandlesIn(vs[k].derivatives, |indices|)
    ensures HandlesIn(r, |indices|)
  {
    InternalAllIn(vs, |indices|);
    OfType(InternalAll(vs), indices, t)
  }

  /** `extract_external_indices(index_type)` on the parts of a monomial. */
  function ExternalIndices(cs: seq<MonomialCoefficient>, ts: seq<MonomialTransform>, indices: seq<MonomialIndex>,
                           t: Option<IndexType>): (r: seq<Handle>)
    requires (forall k :: 0 <= k < |cs| ==> cs[k].index < |indices|) && TransformsIn(ts, |indices|)
    ensures HandlesIn(r, |indices|)
  {
    OfType(ExternalAll(cs, ts), indices, t)
  }

  // ---------------------------------------------------------------------
  // Classification of the still-untyped indices.

  datatype Counts = Counts(secondary: nat, internal: nat, external: nat)

  function CountFor(c: Counts, role: IndexType): nat
  {
    match role
    case Secondary => c.secondary
    case Internal => c.internal
    case External => c.external
    case _ => 0
  }

  function Bump(c: Counts, role: IndexType): Counts
  {
    match role
    case Secondary => c.(secondary := c.secondary + 1)
    case Internal => c.(internal := c.internal + 1)
    case External => c.(external := c.external + 1)
    case _ => c
  }

  /**
   * The role an untyped index takes from how often it occurs inside and
   * outside the integral: (1, 1) SECONDARY, (2, 0) INTERNAL, (0, 2)
   * EXTERNAL, anything else none (an error).
   */
  function RoleFor(numInternal: nat, numExternal: nat): (r: Option<IndexType>)
    ensures r.Some? ==> r.value in {Secondary, Internal, External}
    ensures r == Some(Secondary) <==> numInternal == 1 && numExternal == 1
    ensures r == Some(Internal) <==> numInternal == 2 && numExternal == 0
    ensures r == Some(External) <==> numInternal == 0 && numExternal == 2
  {
    if numInternal == 1 && numExternal == 1 then Some(Secondary)
    else if numInternal == 2 && numExternal == 0 then Some(Internal)
    else if numInternal == 0 && numExternal == 2 then Some(External)
    else None
  }

  datatype Classification = Classification(indices: seq<MonomialIndex>, counts: Counts, failed: bool)

  /**
   * The classification loop over a prefix of `visit` (the untyped internal
   * indices followed by the untyped external ones): an index already typed
   * is skipped; otherwise it gets the role its occurrence counts give and
   * the next id of that role's counter.  The loop stops at the first index
   * with no role.
   */
  function Classify(visit: seq<Handle>, internal: seq<Handle>, external: seq<Handle>, indices0: seq<MonomialIndex>)
    : (r: Classification)
    requires HandlesIn(visit, |indices0|)
    ensures |r.indices| == |indices0|
    decreases |visit|
  {
    if visit == [] then Classification(indices0, Counts(0, 0, 0), false)
    else
      var c := Classify(visit[..|visit| - 1], internal, external, indices0);
      var h := visit[|visit| - 1];
      if c.failed || c.indices[h].indexType.Some? then c
      else
        match RoleFor(multiset(internal)[h], multiset(external)[h])
        case None => c.(failed := true)
        case Some(role) =>
          var id := CountFor(c.counts, role);
          c.(indices := c.indices[h := MonomialIndex(Some(role), c.indices[h].indexRange, Some(id))],
             counts := Bump(c.counts, role))
  }

  /**
   * `TransformedMonomial(monomial)` as a function: the transformed monomial
   * or the error, together with the three index counters afterwards.
   */
  function TransformSpec(m: Monomial): (r: (Result<TransformedMonomial, MonomialError>, Counts))
    ensures r.0.Ok? ==> r.0.value.WellFormed()
  {
    match Factors(m.factors)
    case Err(e) => (Err(e), Counts(0, 0, 0))
    case Ok(b) =>
      var internal := InternalIndices(b.basisFunctions, b.indices, None);
      var external := ExternalIndices(b.coefficients, b.transforms, b.indices, None);
      var c := Classify(internal + external, internal, external, b.indices);
      if c.failed then (Err(ContractionError), c.counts)
      else
        (Ok(TransformedMonomial(m.floatValue, MonomialDeterminant(b.power), b.coefficients, b.transforms,
                                b.basisFunctions, c.indices)), c.counts)
  }

  /**
   * The body of the factor loop of `TransformedMonomial.__init__`: the
   * value index, the components, the Piola step, the derivatives and the
   * new basis function of one factor.
   */
  method TransformFactor(f: Factor, b: Builder) returns (r: Result<Builder, MonomialError>)
    requires b.WellFormed()
    ensures r == FactorStep(f, b)
  {
    var element := f.element;
    var indices := b.indices;
    var coefficients := b.coefficients;
    var vindex := |indices|;
    match f.functionRef {
      case BasisFunctionRef(n) =>
        indices := indices + [MonomialIndex(Some(Primary), Range(element.spaceDimension), Some(n))];
      case CoefficientRef(n) =>
        indices := indices + [MonomialIndex(None, Range(element.spaceDimension), None)];
        coefficients := coefficients + [MonomialCoefficient(vindex, n)];
    }
    var indexMap, components;
    indices, indexMap, components := ExtractComponents(f.components, indices, b.indexMap, element.valueDimension);
    if |components| > 1 {
      return Err(RankError);
    }
    var mapped := MapComponent(element, components, indices, f.restriction, b.power, b.transforms);
    if mapped.Err? {
      return Err(mapped.error);
    }
    var d := ExtractDerivatives(f.derivatives, DerivativeState(mapped.value.indices, indexMap, mapped.value.transforms, []),
                                element.geometricDimension, f.restriction);
    var v := MonomialBasisFunction(element, vindex, mapped.value.components, d.derivatives, f.restriction);
    r := Ok(Builder(d.indices, d.indexMap, mapped.value.power, coefficients, d.transforms, b.basisFunctions + [v]));
  }

  /**
   * The classification loop of `TransformedMonomial.__init__`, drawing the
   * ids from the module counters; `failed` is the "Summation index does
   * not appear exactly twice" error.
   */
  method ClassifyIndices(visit: seq<Handle>, internal: seq<Handle>, external: seq<Handle>, indices0: seq<MonomialIndex>,
                         counters: IndexCounters)
    returns (indices: seq<MonomialIndex>, failed: bool)
    requires HandlesIn(visit, |indices0|)
    requires counters.secondary == 0 && counters.internal == 0 && counters.external == 0
    modifies counters
    ensures Classify(visit, internal, external, indices0)
            == Classification(indices, Counts(counters.secondary, counters.internal, counters.external), failed)
  {
    indices, failed := indices0, false;
    var j := 0;
    while j < |visit|
      invariant 0 <= j <= |visit|
      invariant Classify(visit[..j], internal, external, indices0)
                == Classification(indices, Counts(counters.secondary, counters.internal, counters.external), false)
    {
      assert visit[..j + 1][..j] == visit[..j];
      var h := visit[j];
      if indices[h].indexType.None? {
        var numInternal := multiset(internal)[h];
        var numExternal := multiset(external)[h];
        if numInternal == 1 && numExternal == 1 {
          var id := counters.NextSecondary();
          indices := indices[h := MonomialIndex(Some(Secondary), indices[h].indexRange, Some(id))];
        } else if numInternal == 2 && numExternal == 0 {
          var id := counters.NextInternal();
          indices := indices[h := MonomialIndex(Some(Internal), indices[h].indexRange, Some(id))];
        } else if numInternal == 0 && numExternal == 2 {
          var id := counters.NextExternal();
          indices := indices[h := MonomialIndex(Some(External), indices[h].indexRange, Some(id))];
        } else {
          ClassifyStaysFailed(visit, j + 1, internal, external, indices0);
          return indices, true;
        }
      }
      j := j + 1;
    }
    assert visit[..j] == visit;
  }

  /**
   * `TransformedMonomial.__init__`: resets the module counters, walks the
   * factors and classifies the untyped indices, drawing their ids from the
   * counters.
   */
  method TransformMonomial(m: Monomial, counters: IndexCounters) returns (r: Result<TransformedMonomial, MonomialError>)
    modifies counters
    ensures (r, Counts(counters.secondary, counters.internal, counters.external)) == TransformSpec(m)
  {
    counters.Reset();
    var built := TransformFactors(m.factors);
    if built.Err? {
      return Err(built.error);
    }
    var b := built.value;
    var internal := InternalIndices(b.basisFunctions, b.indices, None);
    var external := ExternalIndices(b.coefficients, b.transforms, b.indices, None);
    var indices, failed := ClassifyIndices(internal + external, internal, external, b.indices, counters);
    if failed {
      return Err(ContractionError);
    }
    r := Ok(TransformedMonomial(m.floatValue, MonomialDeterminant(b.power), b.coefficients, b.transforms,
                                b.basisFunctions, indices));
  }

  /** The factor loop of `TransformedMonomial.__init__`. */
  method TransformFactors(fs: seq<Factor>) returns (r: Result<Builder, MonomialError>)
    ensures r == Factors(fs)
  {
    var b := Builder([], map[], 0, [], [], []);
    var k := 0;
    while k < |fs|
      invariant 0 <= k <= |fs|
      invariant Factors(fs[..k]) == Ok(b)
    {
      assert fs[..k + 1][..k] == fs[..k];
      var step := TransformFactor(fs[k], b);
      assert Factors(fs[..k + 1]) == step;
      if step.Err? {
        FactorsStayFailed(fs, k + 1);
        return step;
      }
      b := step.value;
      k := k + 1;
    }
    assert fs[..k] == fs;
    r := Ok(b);
  }

  /** Once a factor has failed, the factor loop fails with that error whatever follows. */
  lemma {:induction false} FactorsStayFailed(fs: seq<Factor>, k: nat)
    requires k <= |fs| && Factors(fs[..k]).Err?
    ensures Factors(fs) == Factors(fs[..k])
    decreases |fs| - k
  {
    if k < |fs| {
      assert fs[..k + 1][..k] == fs[..k];
      FactorsStayFailed(fs, k + 1);
    } else {
      assert fs[..k] == fs;
    }
  }

  /** Once the classification has failed, visiting more indices changes nothing. */
  lemma {:induction false} ClassifyStaysFailed(visit: seq<Handle>, j: nat, internal: seq<Handle>, external: seq<Handle>,
                                               indices0: seq<MonomialIndex>)
    requires HandlesIn(visit, |indices0|) && j <= |visit|
    requires Classify(visit[..j], internal, external, indices0).failed
    ensures Classify(visit, internal, external, indices0) == Classify(visit[..j], internal, external, indices0)
    decreases |visit| - j
  {
    if j < |visit| {
      assert visit[..j + 1][..j] == visit[..j];
      ClassifyStaysFailed(visit, j + 1, internal, external, indices0);
    } else {
      assert visit[..j] == visit;
    }
  }

  // ---------------------------------------------------------------------
  // extract_indices and extract_unique_indices on a transformed monomial.

  function ExtractInternalIndices(tm: TransformedMonomial, t: Option<IndexType>): (r: seq<Handle>)
    requires tm.WellFormed()
    ensures HandlesIn(r, |tm.indices|)
  {
    InternalIndices(tm.basisFunctions, tm.indices, t)
  }

  function ExtractExternalIndices(tm: TransformedMonomial, t: Option<IndexType>): (r: seq<Handle>)
    requires tm.WellFormed()
    ensures HandlesIn(r, |tm.indices|)
  {
    ExternalIndices(tm.coefficients, tm.transforms, tm.indices, t)
  }

  /** `extract_indices(index_type)`: the internal ones, then the external ones. */
  function ExtractIndices(tm: TransformedMonomial, t: Option<IndexType>): (r: seq<Handle>)
    requires tm.WellFormed()
    ensures HandlesIn(r, |tm.indices|)
  {
    ExtractInternalIndices(tm, t) + ExtractExternalIndices(tm, t)
  }

  /** Keeps the first occurrence of every handle. */
  function Dedup(hs: seq<Handle>): (r: seq<Handle>)
    decreases |hs|
  {
    if hs == [] then []
    else
      var rest := Dedup(hs[..|hs| - 1]);
      if hs[|hs| - 1] in rest then rest else rest + [hs[|hs| - 1]]
  }

  /** Position of the first occurrence of `h` in `hs`. */
  function FirstIndex(hs: seq<Handle>, h: Handle): (k: nat)
    requires h in hs
    ensures k < |hs| && hs[k] == h && forall i :: 0 <= i < k ==> hs[i] != h
  {
    if hs[0] == h then 0
    else
      assert h in hs[1..];
      1 + FirstIndex(hs[1..], h)
  }

  lemma {:induction false} DedupProperties(hs: seq<Handle>)
    ensures forall h :: h in Dedup(hs) <==> h in hs
    ensures forall i, j :: 0 <= i < j < |Dedup(hs)| ==> Dedup(hs)[i] != Dedup(hs)[j]
    ensures forall i, j :: 0 <= i < j < |Dedup(hs)| ==> FirstIndex(hs, Dedup(hs)[i]) < FirstIndex(hs, Dedup(hs)[j])
    decreases |hs|
  {
    if hs != [] {
      var init := hs[..|hs| - 1];
      var last := hs[|hs| - 1];
      DedupProperties(init);
      assert hs == init + [last];
      forall h | h in init ensures FirstIndex(hs, h) == FirstIndex(init, h) {
        FirstIndexUnique(hs, h, FirstIndex(init, h));
      }
      if last !in init {
        FirstIndexUnique(hs, last, |hs| - 1);
      }
    }
  }

  lemma FirstIndexUnique(hs: seq<Handle>, h: Handle, k: nat)
    requires k < |hs| && hs[k] == h && forall i :: 0 <= i < k ==> hs[i] != h
    ensures FirstIndex(hs, h) == k
  {
  }

  /**
   * `extract_unique_indices(index_type)`: the indices of `extract_indices`
   * without repetition (by identity), in order of first occurrence.
   */
  method ExtractUniqueIndices(tm: TransformedMonomial, t: Option<IndexType>) returns (r: seq<Handle>)
    requires tm.WellFormed()
    ensures r == Dedup(ExtractIndices(tm, t))
  {
    var all := ExtractIndices(tm, t);
    r := [];
    var k := 0;
    while k < |all|
      invariant 0 <= k <= |all|
      invariant r == Dedup(all[..k])
    {
      assert all[..k + 1][..k] == all[..k];
      if !(all[k] in r) {
        r := r + [all[k]];
      }
      k := k + 1;
    }
    assert all[..k] == all;
  }
}
