// What TransformedMonomial promises about its result: the determinant power,
// the rank restriction, the derivative transforms, and the classification
// of summation indices with their per-role numbering.
module MonomialProperties {
  import opened Base
  import opened MonomialIndices
  import opened MonomialTransformation

  // ---------------------------------------------------------------------
  // Determinant power.

  /** The number of J transforms in `ts`. */
  function CountJ(ts: seq<MonomialTransform>): nat
    decreases |ts|
  {
    if ts == [] then 0
    else CountJ(ts[..|ts| - 1]) + (if ts[|ts| - 1].transformType == J then 1 else 0)
  }

  lemma CountJSnoc(ts: seq<MonomialTransform>, t: MonomialTransform)
    ensures CountJ(ts + [t]) == CountJ(ts) + (if t.transformType == J then 1 else 0)
  {
    assert (ts + [t])[..|ts|] == ts;
  }

  lemma {:induction false} DerivativeTransformsCount(keys: seq<UflIndex>, st: DerivativeState, gdim: nat, restriction: Restriction)
    requires st.Valid()
    ensures var r := DerivativeTransforms(keys, st, gdim, restriction);
            |r.transforms| == |st.transforms| + |keys| && r.transforms[..|st.transforms|] == st.transforms
            && |r.derivatives| == |st.derivatives| + |keys| && r.derivatives[..|st.derivatives|] == st.derivatives
            && CountJ(r.transforms) == CountJ(st.transforms)
    decreases |keys|
  {
    if keys != [] {
      var init := keys[..|keys| - 1];
      DerivativeTransformsCount(init, st, gdim, restriction);
      var p := DerivativeTransforms(init, st, gdim, restriction);
      var r := DerivativeTransforms(keys, st, gdim, restriction);
      DerivativeStepCount(keys[|keys| - 1], p, gdim, restriction);
      assert r.transforms[..|st.transforms|] == r.transforms[..|p.transforms|][..|st.transforms|];
      assert r.derivatives[..|st.derivatives|] == r.derivatives[..|p.derivatives|][..|st.derivatives|];
    }
  }

  /** One derivative direction adds one transform, a JINV one, and one derivative index. */
  lemma DerivativeStepCount(d: UflIndex, p: DerivativeState, gdim: nat, restriction: Restriction)
    requires p.Valid()
    ensures var r := DerivativeStep(d, p, gdim, restriction);
            |r.transforms| == |p.transforms| + 1 && r.transforms[..|p.transforms|] == p.transforms
            && |r.derivatives| == |p.derivatives| + 1 && r.derivatives[..|p.derivatives|] == p.derivatives
            && CountJ(r.transforms) == CountJ(p.transforms)
  {
    var r := DerivativeStep(d, p, gdim, restriction);
    var t := r.transforms[|p.transforms|];
    assert r.transforms == p.transforms + [t];
    CountJSnoc(p.transforms, t);
    assert r.derivatives[..|p.derivatives|] == p.derivatives;
  }

  /**
   * From `st` to `r`, as many transforms as derivatives were added, and each
   * added transform is a JINV transform with offset 0 and the factor's
   * restriction, whose `index0` is the derivative index added with it.
   */
  predicate JInvAfter(st: DerivativeState, r: DerivativeState, restriction: Restriction)
  {
    |st.transforms| <= |r.transforms| && |st.derivatives| <= |r.derivatives|
    && |r.transforms| - |st.transforms| == |r.derivatives| - |st.derivatives|
    && forall k :: |st.transforms| <= k < |r.transforms| ==>
         r.transforms[k].transformType == JInv && r.transforms[k].offset == 0
         && r.transforms[k].restriction == restriction
         && r.transforms[k].index0 == r.derivatives[k - |st.transforms| + |st.derivatives|]
  }

  /** Each derivative direction adds exactly one JINV transform, tied to its derivative index. */
  lemma {:induction false} DerivativeTransformsShape(keys: seq<UflIndex>, st: DerivativeState, gdim: nat, restriction: Restriction)
    requires st.Valid()
    ensures var r := DerivativeTransforms(keys, st, gdim, restriction);
            |r.transforms| == |st.transforms| + |keys| && JInvAfter(st, r, restriction)
    decreases |keys|
  {
    if keys != [] {
      var init := keys[..|keys| - 1];
      DerivativeTransformsShape(init, st, gdim, restriction);
      var p := DerivativeTransforms(init, st, gdim, restriction);
      DerivativeStepShape(keys[|keys| - 1], st, p, gdim, restriction);
    }
  }

  lemma DerivativeStepShape(d: UflIndex, st: DerivativeState, p: DerivativeState, gdim: nat, restriction: Restriction)
    requires p.Valid() && JInvAfter(st, p, restriction)
    ensures JInvAfter(st, DerivativeStep(d, p, gdim, restriction), restriction)
  {
    var r := DerivativeStep(d, p, gdim, restriction);
    forall k | |st.transforms| <= k < |r.transforms|
      ensures r.transforms[k].transformType == JInv && r.transforms[k].offset == 0
              && r.transforms[k].restriction == restriction
              && r.transforms[k].index0 == r.derivatives[k - |st.transforms| + |st.derivatives|]
    {
      if k < |p.transforms| {
        assert r.transforms[k] == r.transforms[..|p.transforms|][k] == p.transforms[k];
        assert r.derivatives[k - |st.transforms| + |st.derivatives|] == p.derivatives[k - |st.transforms| + |st.derivatives|];
      }
    }
  }

  /**
   * From `st` to `r`, every derivative index added is a new untyped index
   * with range `range(gdim)`.
   */
  predicate FreshAfter(st: DerivativeState, r: DerivativeState, gdim: nat)
  {
    |st.derivatives| <= |r.derivatives| && |st.indices| <= |r.indices|
    && forall k :: |st.derivatives| <= k < |r.derivatives| ==>
         |st.indices| <= r.derivatives[k] < |r.indices|
         && r.indices[r.derivatives[k]] == MonomialIndex(None, Range(gdim), None)
  }

  /** From `st` to `r`, the derivative indices added increase strictly. */
  predicate IncreasingAfter(st: DerivativeState, r: DerivativeState)
  {
    |st.derivatives| <= |r.derivatives|
    && forall i, j :: |st.derivatives| <= i < j < |r.derivatives| ==> r.derivatives[i] < r.derivatives[j]
  }

  /** Every derivative index is a new untyped index with range `range(gdim)`. */
  lemma {:induction false} DerivativeIndicesFresh(keys: seq<UflIndex>, st: DerivativeState, gdim: nat, restriction: Restriction)
    requires st.Valid()
    ensures FreshAfter(st, DerivativeTransforms(keys, st, gdim, restriction), gdim)
    decreases |keys|
  {
    if keys != [] {
      var init := keys[..|keys| - 1];
      DerivativeIndicesFresh(init, st, gdim, restriction);
      DerivativeStepFresh(keys[|keys| - 1], st, DerivativeTransforms(init, st, gdim, restriction), gdim, restriction);
    }
  }

  lemma DerivativeStepFresh(d: UflIndex, st: DerivativeState, p: DerivativeState, gdim: nat, restriction: Restriction)
    requires p.Valid() && FreshAfter(st, p, gdim)
    ensures FreshAfter(st, DerivativeStep(d, p, gdim, restriction), gdim)
  {
    var r := DerivativeStep(d, p, gdim, restriction);
    forall k | |st.derivatives| <= k < |r.derivatives|
      ensures |st.indices| <= r.derivatives[k] < |r.indices|
              && r.indices[r.derivatives[k]] == MonomialIndex(None, Range(gdim), None)
    {
      if k < |p.derivatives| {
        var x := p.derivatives[k];
        assert r.derivatives[k] == x && x < |p.indices|;
        assert r.indices[x] == p.indices[x];
      } else {
        assert r.derivatives[k] == |p.indices|;
      }
    }
  }

  /** The derivative indices of one factor are handed out in increasing arena order, so no two coincide. */
  lemma {:induction false} DerivativeIndicesIncrease(keys: seq<UflIndex>, st: DerivativeState, gdim: nat, restriction: Restriction)
    requires st.Valid()
    ensures IncreasingAfter(st, DerivativeTransforms(keys, st, gdim, restriction))
    decreases |keys|
  {
    if keys != [] {
      var init := keys[..|keys| - 1];
      DerivativeIndicesIncrease(init, st, gdim, restriction);
      DerivativeIndicesFresh(init, st, gdim, restriction);
      DerivativeStepIncreasing(keys[|keys| - 1], st, DerivativeTransforms(init, st, gdim, restriction), gdim, restriction);
    }
  }

  lemma DerivativeStepIncreasing(d: UflIndex, st: DerivativeState, p: DerivativeState, gdim: nat, restriction: Restriction)
    requires p.Valid() && IncreasingAfter(st, p) && FreshAfter(st, p, gdim)
    ensures IncreasingAfter(st, DerivativeStep(d, p, gdim, restriction))
  {
    var r := DerivativeStep(d, p, gdim, restriction);
    forall i, j | |st.derivatives| <= i < j < |r.derivatives|
      ensures r.derivatives[i] < r.derivatives[j]
    {
      assert r.derivatives[i] == p.derivatives[i] < |p.indices|;
      if j < |p.derivatives| {
        assert r.derivatives[j] == p.derivatives[j];
      } else {
        assert r.derivatives[j] == |p.indices|;
      }
    }
  }

  /** The derivative loop never rebinds a key `index_map` already holds. */
  lemma {:induction false} DerivativeMapKept(keys: seq<UflIndex>, st: DerivativeState, gdim: nat, restriction: Restriction)
    requires st.Valid()
    ensures var r := DerivativeTransforms(keys, st, gdim, restriction);
            forall key :: key in st.indexMap ==> key in r.indexMap && r.indexMap[key] == st.indexMap[key]
    decreases |keys|
  {
    if keys != [] {
      var init := keys[..|keys| - 1];
      DerivativeMapKept(init, st, gdim, restriction);
      DerivativeIndexResolved(keys[|keys| - 1], DerivativeTransforms(init, st, gdim, restriction), gdim, restriction);
    }
  }

  /**
   * From `st` to `r`, the derivative direction `keys[j]` whose key `st`'s
   * `index_map` already holds (and not as a FIXED index) got that very
   * instance as the `index1` of its JINV transform.
   */
  predicate ReusesAfter(keys: seq<UflIndex>, st: DerivativeState, r: DerivativeState)
  {
    forall j :: 0 <= j < |keys| && keys[j] in st.indexMap && st.indexMap[keys[j]] < |st.indices|
                && st.indices[st.indexMap[keys[j]]].indexType != Some(Fixed) ==>
      |st.transforms| + j < |r.transforms| && r.transforms[|st.transforms| + j].index1 == st.indexMap[keys[j]]
  }

  /**
   * A derivative direction whose key is already in `index_map` (and not
   * FIXED) gets that very instance as the `index1` of its JINV transform.
   */
  lemma {:induction false} DerivativeReusesKnownIndex(keys: seq<UflIndex>, st: DerivativeState, gdim: nat,
                                                      restriction: Restriction)
    requires st.Valid()
    ensures ReusesAfter(keys, st, DerivativeTransforms(keys, st, gdim, restriction))
    decreases |keys|
  {
    if keys != [] {
      var init := keys[..|keys| - 1];
      DerivativeReusesKnownIndex(init, st, gdim, restriction);
      DerivativeTransformsCount(init, st, gdim, restriction);
      DerivativeMapKept(init, st, gdim, restriction);
      DerivativeStepReuses(keys, st, DerivativeTransforms(init, st, gdim, restriction), gdim, restriction);
    }
  }

  lemma DerivativeStepReuses(keys: seq<UflIndex>, st: DerivativeState, p: DerivativeState, gdim: nat, restriction: Restriction)
    requires keys != [] && st.Valid() && p.Valid() && st.indices <= p.indices
    requires ReusesAfter(keys[..|keys| - 1], st, p) && |p.transforms| == |st.transforms| + |keys| - 1
    requires forall key :: key in st.indexMap ==> key in p.indexMap && p.indexMap[key] == st.indexMap[key]
    ensures ReusesAfter(keys, st, DerivativeStep(keys[|keys| - 1], p, gdim, restriction))
  {
    var d := keys[|keys| - 1];
    var r := DerivativeStep(d, p, gdim, restriction);
    forall j | 0 <= j < |keys| && keys[j] in st.indexMap && st.indexMap[keys[j]] < |st.indices|
               && st.indices[st.indexMap[keys[j]]].indexType != Some(Fixed)
      ensures |st.transforms| + j < |r.transforms| && r.transforms[|st.transforms| + j].index1 == st.indexMap[keys[j]]
    {
      if j < |keys| - 1 {
        assert keys[j] == keys[..|keys| - 1][j];
        assert r.transforms[|st.transforms| + j] == r.transforms[..|p.transforms|][|st.transforms| + j];
      } else {
        DerivativeIndexResolved(d, p, gdim, restriction);
        var h := st.indexMap[d];
        assert r.indices[h] == p.indices[h] == st.indices[h];
      }
    }
  }

  /**
   * From `st` to `r`, the `j`-th JINV transform added runs from the `j`-th
   * derivative index added to `h`, and `key` is bound to `h`.
   */
  predicate JInvAt(st: DerivativeState, r: DerivativeState, j: nat, key: UflIndex, h: Handle)
  {
    |st.transforms| + j < |r.transforms| && |st.derivatives| + j < |r.derivatives|
    && r.transforms[|st.transforms| + j].index0 == r.derivatives[|st.derivatives| + j]
    && r.transforms[|st.transforms| + j].index1 == h
    && key in r.indexMap && r.indexMap[key] == h
  }

  /**
   * A derivative direction `keys[j]` that `index_map` already maps to a
   * non-FIXED `h` gets a JINV transform from its own derivative index to
   * `h`, and the key stays bound to `h`.
   */
  lemma DerivativeJInvToKnown(keys: seq<UflIndex>, st: DerivativeState, gdim: nat, restriction: Restriction, j: nat, h: Handle)
    requires st.Valid() && j < |keys| && keys[j] in st.indexMap && st.indexMap[keys[j]] == h
    requires st.indices[h].indexType != Some(Fixed)
    ensures var r := DerivativeTransforms(keys, st, gdim, restriction);
            |r.transforms| == |st.transforms| + |keys| && |r.derivatives| == |st.derivatives| + |keys|
            && JInvAt(st, r, j, keys[j], h)
  {
    DerivativeTransformsShape(keys, st, gdim, restriction);
    DerivativeMapKept(keys, st, gdim, restriction);
    DerivativeReusesKnownIndex(keys, st, gdim, restriction);
  }

  /**
   * In the builder `r` after a factor with `n` derivative directions, the
   * JINV transform of direction `j` runs from the factor's `j`-th derivative
   * index to `h`, and `key` is bound to `h` in `index_map`.
   */
  predicate DerivativeJInvTo(r: Builder, n: nat, j: nat, key: UflIndex, h: Handle)
  {
    j < n <= |r.transforms| && |r.basisFunctions| > 0 && j < |r.basisFunctions[|r.basisFunctions| - 1].derivatives|
    && r.transforms[|r.transforms| - n + j].index0 == r.basisFunctions[|r.basisFunctions| - 1].derivatives[j]
    && r.transforms[|r.transforms| - n + j].index1 == h
    && key in r.indexMap && r.indexMap[key] == h
  }

  /**
   * The derivative part of one factor: a derivative direction whose key
   * `index_map` already maps to `h` (not FIXED) gets a JINV transform from
   * its own derivative index to `h`, and the key stays bound to `h`.
   */
  lemma FactorDerivativesShare(f: Factor, vindex: Handle, coefficients: seq<MonomialCoefficient>,
                               basisFunctions: seq<MonomialBasisFunction>, p: Mapped, indexMap: map<UflIndex, Handle>,
                               j: nat, h: Handle)
    requires MapIn(indexMap, |p.indices|) && TransformsIn(p.transforms, |p.indices|) && Unclassified(p.indices)
    requires AllHandlesIn(coefficients, [], basisFunctions, |p.indices|)
    requires vindex < |p.indices| && HandlesIn(p.components, |p.indices|)
    requires j < |f.derivatives| && f.derivatives[j] in indexMap && indexMap[f.derivatives[j]] == h
    requires h < |p.indices| && p.indices[h].indexType != Some(Fixed)
    ensures DerivativeJInvTo(FactorDerivatives(f, vindex, coefficients, basisFunctions, p, indexMap),
                             |f.derivatives|, j, f.derivatives[j], h)
  {
    var d0 := DerivativeState(p.indices, indexMap, p.transforms, []);
    DerivativeJInvToKnown(f.derivatives, d0, f.element.geometricDimension, f.restriction, j, h);
  }

  /**
   * Within one factor, a derivative direction that is also one of the
   * factor's components (a free index) gets the component's own index
   * instance from `index_map`: the JINV transform of that derivative runs
   * from the derivative's index to the component's index.
   */
  lemma DerivativeSharesComponentIndex(f: Factor, b: Builder, j: nat, k: nat)
    requires b.WellFormed() && FactorStep(f, b).Ok?
    requires j < |f.derivatives| && k < |f.components| && f.derivatives[j] == f.components[k]
    requires var ix := ValueIndex(f.functionRef, f.element.spaceDimension, b.indices, b.coefficients).0;
             var (st, cs) := ResolvedComponents(f.components, Resolution(ix, b.indexMap), Range(f.element.valueDimension));
             st.indices[cs[k]].indexType != Some(Fixed)
    ensures var ix := ValueIndex(f.functionRef, f.element.spaceDimension, b.indices, b.coefficients).0;
            var cs := ResolvedComponents(f.components, Resolution(ix, b.indexMap), Range(f.element.valueDimension)).1;
            DerivativeJInvTo(FactorStep(f, b).value, |f.derivatives|, j, f.components[k], cs[k])
  {
    var (ix, vindex, coefficients) := ValueIndex(f.functionRef, f.element.spaceDimension, b.indices, b.coefficients);
    var (st, cs) := ResolvedComponents(f.components, Resolution(ix, b.indexMap), Range(f.element.valueDimension));
    FactorStepUnfolds(f, b);
    ResolvedComponentsMap(f.components, Resolution(ix, b.indexMap), Range(f.element.valueDimension));
    var p := MapComponent(f.element, cs, st.indices, f.restriction, b.power, b.transforms).value;
    FactorDerivativesShare(f, vindex, coefficients, b.basisFunctions, p, st.indexMap, j, cs[k]);
  }

  /** A successful factor step is its derivative part applied to the mapped component. */
  lemma FactorStepUnfolds(f: Factor, b: Builder)
    requires b.WellFormed() && FactorStep(f, b).Ok?
    ensures var (ix, vindex, coefficients) := ValueIndex(f.functionRef, f.element.spaceDimension, b.indices, b.coefficients);
            var (st, cs) := ResolvedComponents(f.components, Resolution(ix, b.indexMap), Range(f.element.valueDimension));
            |cs| <= 1 && MapComponent(f.element, cs, st.indices, f.restriction, b.power, b.transforms).Ok?
            && var p := MapComponent(f.element, cs, st.indices, f.restriction, b.power, b.transforms).value;
            && st.indices <= p.indices && MapIn(st.indexMap, |p.indices|) && TransformsIn(p.transforms, |p.indices|)
            && Unclassified(p.indices) && AllHandlesIn(coefficients, [], b.basisFunctions, |p.indices|)
            && vindex < |p.indices| && HandlesIn(p.components, |p.indices|)
            && FactorStep(f, b).value == FactorDerivatives(f, vindex, coefficients, b.basisFunctions, p, st.indexMap)
  {
    FactorStepMapped(f, b);
  }

  /** A successful factor step maps its component to a state the derivative part accepts. */
  lemma FactorStepMapped(f: Factor, b: Builder)
    requires b.WellFormed() && FactorStep(f, b).Ok?
    ensures var (ix, vindex, coefficients) := ValueIndex(f.functionRef, f.element.spaceDimension, b.indices, b.coefficients);
            var (st, cs) := ResolvedComponents(f.components, Resolution(ix, b.indexMap), Range(f.element.valueDimension));
            |cs| <= 1 && MapComponent(f.element, cs, st.indices, f.restriction, b.power, b.transforms).Ok?
            && var p := MapComponent(f.element, cs, st.indices, f.restriction, b.power, b.transforms).value;
            && st.indices <= p.indices && MapIn(st.indexMap, |p.indices|) && TransformsIn(p.transforms, |p.indices|)
            && Unclassified(p.indices) && AllHandlesIn(coefficients, [], b.basisFunctions, |p.indices|)
            && vindex < |p.indices| && HandlesIn(p.components, |p.indices|)
  {
    FactorStepMapsComponent(f, b);
    var (ix, vindex, coefficients) := ValueIndex(f.functionRef, f.element.spaceDimension, b.indices, b.coefficients);
    var (st, cs) := ResolvedComponents(f.components, Resolution(ix, b.indexMap), Range(f.element.valueDimension));
    AllHandlesGrow(coefficients, b.transforms, b.basisFunctions, |ix|, |st.indices|);
    var p := MapComponent(f.element, cs, st.indices, f.restriction, b.power, b.transforms).value;
    AllHandlesGrow(coefficients, [], b.basisFunctions, |st.indices|, |p.indices|);
  }

  /** A successful factor step has at most one component, and mapping it succeeds. */
  lemma FactorStepMapsComponent(f: Factor, b: Builder)
    requires b.WellFormed() && FactorStep(f, b).Ok?
    ensures var (ix, vindex, coefficients) := ValueIndex(f.functionRef, f.element.spaceDimension, b.indices, b.coefficients);
            var (st, cs) := ResolvedComponents(f.components, Resolution(ix, b.indexMap), Range(f.element.valueDimension));
            |cs| <= 1 && MapComponent(f.element, cs, st.indices, f.restriction, b.power, b.transforms).Ok?
  {
  }

  /** Power and J transforms of one factor step change together. */
  lemma FactorStepPower(f: Factor, b: Builder)
    requires b.WellFormed()
    ensures FactorStep(f, b).Ok? ==>
              FactorStep(f, b).value.power - b.power == CountJ(b.transforms) - CountJ(FactorStep(f, b).value.transforms)
  {
    var element := f.element;
    var (ix, vindex, coefficients) := ValueIndex(f.functionRef, element.spaceDimension, b.indices, b.coefficients);
    var (st, components) := ResolvedComponents(f.components, Resolution(ix, b.indexMap), Range(element.valueDimension));
    if |components| <= 1 {
      AllHandlesGrow(coefficients, b.transforms, b.basisFunctions, |ix|, |st.indices|);
      var mc := MapComponent(element, components, st.indices, f.restriction, b.power, b.transforms);
      if mc.Ok? {
        var p := mc.value;
        assert p.power - b.power == CountJ(b.transforms) - CountJ(p.transforms) by {
          if components != [] {
            var range := st.indices[components[0]].indexRange;
            var sub := element.componentElements[range[0]];
            if sub.mapping != Affine {
              assert p.transforms == b.transforms + [p.transforms[|b.transforms|]];
              CountJSnoc(b.transforms, p.transforms[|b.transforms|]);
            }
          }
        }
        DerivativeTransformsCount(f.derivatives, DerivativeState(p.indices, st.indexMap, p.transforms, []),
                                  element.geometricDimension, f.restriction);
      }
    }
  }

  /**
   * The determinant power of a transformed monomial is minus the number of
   * J transforms: it starts at 0 and only a contravariant Piola factor,
   * which adds the J transform, lowers it.
   */
  lemma {:induction false} FactorsPower(fs: seq<Factor>)
    ensures Factors(fs).Ok? ==> Factors(fs).value.power == -(CountJ(Factors(fs).value.transforms) as int)
    decreases |fs|
  {
    if fs != [] {
      FactorsPower(fs[..|fs| - 1]);
      var prev := Factors(fs[..|fs| - 1]);
      if prev.Ok? {
        FactorStepPower(fs[|fs| - 1], prev.value);
      }
    }
  }

  lemma DeterminantPower(m: Monomial)
    ensures TransformSpec(m).0.Ok? ==>
              var tm := TransformSpec(m).0.value;
              tm.determinant.power == -(CountJ(tm.transforms) as int) && tm.determinant.power <= 0
  {
    FactorsPower(m.factors);
  }

  // ---------------------------------------------------------------------
  // Rank.

  /** A monomial is transformed only if none of its factors has more than one component index. */
  lemma {:induction false} FactorsRankAtMostOne(fs: seq<Factor>, k: nat)
    requires Factors(fs).Ok? && k < |fs|
    ensures |fs[k].components| <= 1
    decreases |fs|
  {
    var init := fs[..|fs| - 1];
    var prev := Factors(init);
    if k == |fs| - 1 {
      FactorStepRank(fs[k], prev.value);
    } else {
      FactorsRankAtMostOne(init, k);
    }
  }

  lemma FactorStepRank(f: Factor, b: Builder)
    requires b.WellFormed()
    ensures |f.components| > 1 ==> FactorStep(f, b) == Err(RankError)
  {
    var (ix, vindex, coefficients) := ValueIndex(f.functionRef, f.element.spaceDimension, b.indices, b.coefficients);
    var (st, components) := ResolvedComponents(f.components, Resolution(ix, b.indexMap), Range(f.element.valueDimension));
    assert |components| == |f.components|;
  }

  /** The first factor with more than one component index makes the whole transformation fail with the rank error. */
  lemma RankErrorAtFirstWideFactor(fs: seq<Factor>, k: nat)
    requires k < |fs| && Factors(fs[..k]).Ok? && |fs[k].components| > 1
    ensures Factors(fs) == Err(RankError)
  {
    assert fs[..k + 1][..k] == fs[..k];
    FactorStepRank(fs[k], Factors(fs[..k]).value);
    assert Factors(fs[..k + 1]) == Err(RankError);
    FactorsStayFailed(fs, k + 1);
  }

  // ---------------------------------------------------------------------
  // Classification.

  /** The role the classification gives an untyped index, from its occurrence counts. */
  function RoleOf(h: Handle, internal: seq<Handle>, external: seq<Handle>): Option<IndexType>
  {
    RoleFor(multiset(internal)[h], multiset(external)[h])
  }

  /** The entries of `visit` whose role is `role`, in order and with repetitions. */
  function WithRole(visit: seq<Handle>, internal: seq<Handle>, external: seq<Handle>, role: IndexType): (r: seq<Handle>)
    ensures forall h :: h in r <==> h in visit && RoleOf(h, internal, external) == Some(role)
    decreases |visit|
  {
    if visit == [] then []
    else
      var last := visit[|visit| - 1];
      assert visit == visit[..|visit| - 1] + [last];
      WithRole(visit[..|visit| - 1], internal, external, role)
      + (if RoleOf(last, internal, external) == Some(role) then [last] else [])
  }

  lemma DedupSnoc(s: seq<Handle>, x: Handle)
    ensures Dedup(s + [x]) == if x in Dedup(s) then Dedup(s) else Dedup(s) + [x]
  {
    assert (s + [x])[..|s|] == s;
  }

  lemma DedupMembers(s: seq<Handle>)
    ensures forall h :: h in Dedup(s) <==> h in s
  {
    DedupProperties(s);
  }

  /**
   * The indices of role `role` in order of first visit are numbered 0, 1,
   * ... without gaps, the counter of that role stands at their number, and
   * each keeps its range.
   */
  ghost predicate Numbered(c: Classification, visit: seq<Handle>, internal: seq<Handle>, external: seq<Handle>,
                           indices0: seq<MonomialIndex>, role: IndexType)
  {
    var u := Dedup(WithRole(visit, internal, external, role));
    CountFor(c.counts, role) == |u|
    && forall k :: 0 <= k < |u| ==>
         u[k] < |c.indices| && u[k] < |indices0|
         && c.indices[u[k]] == MonomialIndex(Some(role), indices0[u[k]].indexRange, Some(k))
  }

  /** Some visited index has no role. */
  ghost predicate SomeUnclassifiable(visit: seq<Handle>, internal: seq<Handle>, external: seq<Handle>)
  {
    exists k :: 0 <= k < |visit| && RoleOf(visit[k], internal, external).None?
  }

  ghost predicate ClassifyInvariant(c: Classification, visit: seq<Handle>, internal: seq<Handle>, external: seq<Handle>,
                                    indices0: seq<MonomialIndex>)
  {
    |c.indices| == |indices0|
    && (c.failed <==> SomeUnclassifiable(visit, internal, external))
    && (!c.failed ==>
          (forall h :: 0 <= h < |indices0| && h !in visit ==> c.indices[h] == indices0[h])
          && forall role :: Numbered(c, visit, internal, external, indices0, role))
  }

  /** Under the invariant, a visited index is typed and an index not visited is untouched. */
  lemma VisitedAreTyped(c: Classification, visit: seq<Handle>, internal: seq<Handle>, external: seq<Handle>,
                        indices0: seq<MonomialIndex>, h: Handle)
    requires ClassifyInvariant(c, visit, internal, external, indices0) && !c.failed
    requires h in visit && h < |indices0|
    ensures RoleOf(h, internal, external).Some?
    ensures c.indices[h].indexType == RoleOf(h, internal, external)
  {
    var k :| 0 <= k < |visit| && visit[k] == h;
    assert !RoleOf(visit[k], internal, external).None?;
    var role := RoleOf(h, internal, external).value;
    var u := Dedup(WithRole(visit, internal, external, role));
    DedupMembers(WithRole(visit, internal, external, role));
    assert h in u;
    var j :| 0 <= j < |u| && u[j] == h;
    assert Numbered(c, visit, internal, external, indices0, role);
  }

  lemma HandlesSnoc(prefix: seq<Handle>, h: Handle, n: nat)
    requires HandlesIn(prefix, n) && h < n
    ensures HandlesIn(prefix + [h], n)
  {
  }

  lemma AllClassifiable(prefix: seq<Handle>, h: Handle, internal: seq<Handle>, external: seq<Handle>)
    requires !SomeUnclassifiable(prefix, internal, external) && RoleOf(h, internal, external).Some?
    ensures !SomeUnclassifiable(prefix + [h], internal, external)
  {
    var visit := prefix + [h];
    forall k | 0 <= k < |visit| ensures RoleOf(visit[k], internal, external).Some? {
      if k < |prefix| {
        assert visit[k] == prefix[k];
      }
    }
  }

  /** Visiting an index that is already typed changes nothing. */
  lemma ClassifyStepTyped(prefix: seq<Handle>, h: Handle, internal: seq<Handle>, external: seq<Handle>,
                          indices0: seq<MonomialIndex>)
    requires HandlesIn(prefix, |indices0|) && h < |indices0|
    requires ClassifyInvariant(Classify(prefix, internal, external, indices0), prefix, internal, external, indices0)
    requires !Classify(prefix, internal, external, indices0).failed
    requires h in prefix
    ensures ClassifyInvariant(Classify(prefix + [h], internal, external, indices0), prefix + [h], internal, external, indices0)
  {
    var visit := prefix + [h];
    assert visit[..|visit| - 1] == prefix;
    HandlesSnoc(prefix, h, |indices0|);
    var c := Classify(prefix, internal, external, indices0);
    VisitedAreTyped(c, prefix, internal, external, indices0, h);
    assert Classify(visit, internal, external, indices0) == c;
    forall role ensures Numbered(c, visit, internal, external, indices0, role) {
      var w := WithRole(prefix, internal, external, role);
      assert Numbered(c, prefix, internal, external, indices0, role);
      if RoleOf(h, internal, external) == Some(role) {
        assert WithRole(visit, internal, external, role) == w + [h];
        DedupMembers(w);
        DedupSnoc(w, h);
      } else {
        assert WithRole(visit, internal, external, role) == w;
      }
    }
    AllClassifiable(prefix, h, internal, external);
  }

  /** Visiting an untyped index gives it its role and the next id of that role, or fails. */
  lemma ClassifyStepNew(prefix: seq<Handle>, h: Handle, internal: seq<Handle>, external: seq<Handle>,
                        indices0: seq<MonomialIndex>)
    requires HandlesIn(prefix, |indices0|) && h < |indices0|
    requires ClassifyInvariant(Classify(prefix, internal, external, indices0), prefix, internal, external, indices0)
    requires !Classify(prefix, internal, external, indices0).failed
    requires h !in prefix && indices0[h].indexType.None?
    ensures ClassifyInvariant(Classify(prefix + [h], internal, external, indices0), prefix + [h], internal, external, indices0)
  {
    var visit := prefix + [h];
    assert visit[..|visit| - 1] == prefix;
    HandlesSnoc(prefix, h, |indices0|);
    var c := Classify(prefix, internal, external, indices0);
    assert c.indices[h] == indices0[h];
    var c' := Classify(visit, internal, external, indices0);
    match RoleOf(h, internal, external)
    case None =>
      assert visit[|visit| - 1] == h;
      assert SomeUnclassifiable(visit, internal, external);
    case Some(r0) =>
      assert c' == c.(indices := c.indices[h := MonomialIndex(Some(r0), c.indices[h].indexRange, Some(CountFor(c.counts, r0)))],
                      counts := Bump(c.counts, r0));
      forall role ensures Numbered(c', visit, internal, external, indices0, role) {
        NumberedStep(c, c', prefix, h, internal, external, indices0, role, r0);
      }
      AllClassifiable(prefix, h, internal, external);
  }

  /** One role's numbering after a new index of role `r0` gets the next id of its role. */
  lemma NumberedStep(c: Classification, c': Classification, prefix: seq<Handle>, h: Handle,
                     internal: seq<Handle>, external: seq<Handle>, indices0: seq<MonomialIndex>, role: IndexType, r0: IndexType)
    requires |c.indices| == |indices0| && h < |indices0| && h !in prefix && c.indices[h] == indices0[h]
    requires indices0[h].indexType.None? && RoleOf(h, internal, external) == Some(r0)
    requires Numbered(c, prefix, internal, external, indices0, role)
    requires c' == c.(indices := c.indices[h := MonomialIndex(Some(r0), c.indices[h].indexRange, Some(CountFor(c.counts, r0)))],
                      counts := Bump(c.counts, r0))
    ensures Numbered(c', prefix + [h], internal, external, indices0, role)
  {
    var visit := prefix + [h];
    assert visit[..|visit| - 1] == prefix;
    var w := WithRole(prefix, internal, external, role);
    DedupMembers(w);
    if role == r0 {
      assert WithRole(visit, internal, external, role) == w + [h];
      DedupSnoc(w, h);
      NumberedNewRole(c, c', Dedup(w), h, indices0, role);
    } else {
      assert WithRole(visit, internal, external, role) == w;
      NumberedOtherRole(c, c', Dedup(w), h, indices0, role, r0);
    }
  }

  /** The role of the new index: its numbering grows by the new index, with the next id. */
  lemma NumberedNewRole(c: Classification, c': Classification, u: seq<Handle>, h: Handle,
                        indices0: seq<MonomialIndex>, role: IndexType)
    requires |c.indices| == |indices0| && h < |indices0| && h !in u && c.indices[h] == indices0[h]
    requires role in {Secondary, Internal, External} && CountFor(c.counts, role) == |u|
    requires forall k :: 0 <= k < |u| ==>
               u[k] < |c.indices| && u[k] < |indices0|
               && c.indices[u[k]] == MonomialIndex(Some(role), indices0[u[k]].indexRange, Some(k))
    requires c' == c.(indices := c.indices[h := MonomialIndex(Some(role), c.indices[h].indexRange, Some(CountFor(c.counts, role)))],
                      counts := Bump(c.counts, role))
    ensures CountFor(c'.counts, role) == |u + [h]|
    ensures forall k :: 0 <= k < |u + [h]| ==>
              (u + [h])[k] < |c'.indices| && (u + [h])[k] < |indices0|
              && c'.indices[(u + [h])[k]] == MonomialIndex(Some(role), indices0[(u + [h])[k]].indexRange, Some(k))
  {
    forall k | 0 <= k < |u + [h]|
      ensures (u + [h])[k] < |c'.indices| && (u + [h])[k] < |indices0|
              && c'.indices[(u + [h])[k]] == MonomialIndex(Some(role), indices0[(u + [h])[k]].indexRange, Some(k))
    {
      if k < |u| {
        assert (u + [h])[k] == u[k] != h;
      }
    }
  }

  /** Any other role: its numbering and counter are unchanged. */
  lemma NumberedOtherRole(c: Classification, c': Classification, u: seq<Handle>, h: Handle,
                          indices0: seq<MonomialIndex>, role: IndexType, r0: IndexType)
    requires |c.indices| == |indices0| && h < |indices0| && role != r0
    requires CountFor(c.counts, role) == |u|
    requires forall k :: 0 <= k < |u| ==>
               u[k] < |c.indices| && u[k] < |indices0|
               && c.indices[u[k]] == MonomialIndex(Some(role), indices0[u[k]].indexRange, Some(k))
    requires c.indices[h].indexType != Some(role)
    requires c' == c.(indices := c.indices[h := MonomialIndex(Some(r0), c.indices[h].indexRange, Some(CountFor(c.counts, r0)))],
                      counts := Bump(c.counts, r0))
    ensures CountFor(c'.counts, role) == |u|
    ensures forall k :: 0 <= k < |u| ==>
              u[k] < |c'.indices| && u[k] < |indices0|
              && c'.indices[u[k]] == MonomialIndex(Some(role), indices0[u[k]].indexRange, Some(k))
  {
    forall k | 0 <= k < |u|
      ensures c'.indices[u[k]] == c.indices[u[k]]
    {
      assert u[k] != h;
    }
  }

  /**
   * The classification loop meets its specification: it fails exactly when
   * some visited index occurs neither once inside and once outside, nor
   * twice inside, nor twice outside the integral; otherwise every visited
   * index gets its role, the ids of each role are 0, 1, ... in order of
   * first visit, the counters end at the number of indices of each role,
   * and no index outside `visit` is touched.
   */
  lemma {:induction false} ClassifyCorrect(visit: seq<Handle>, internal: seq<Handle>, external: seq<Handle>,
                                           indices0: seq<MonomialIndex>)
    requires HandlesIn(visit, |indices0|)
    requires forall k :: 0 <= k < |visit| ==> indices0[visit[k]].indexType.None?
    ensures ClassifyInvariant(Classify(visit, internal, external, indices0), visit, internal, external, indices0)
    decreases |visit|
  {
    if visit == [] {
      forall role ensures Numbered(Classify(visit, internal, external, indices0), visit, internal, external, indices0, role) {
        assert WithRole(visit, internal, external, role) == [];
      }
    } else {
      var prefix := visit[..|visit| - 1];
      var h := visit[|visit| - 1];
      assert visit == prefix + [h];
      ClassifyCorrect(prefix, internal, external, indices0);
      var c := Classify(prefix, internal, external, indices0);
      if c.failed {
        assert Classify(visit, internal, external, indices0) == c;
        var k :| 0 <= k < |prefix| && RoleOf(prefix[k], internal, external).None?;
        assert visit[k] == prefix[k];
      } else if h in prefix {
        ClassifyStepTyped(prefix, h, internal, external, indices0);
      } else {
        ClassifyStepNew(prefix, h, internal, external, indices0);
      }
    }
  }

  // ---------------------------------------------------------------------
  // The classification as seen from the transformed monomial.

  lemma SnocSplit(a: seq<Handle>, b: seq<Handle>)
    requires b != []
    ensures (a + b)[..|a + b| - 1] == a + b[..|b| - 1] && (a + b)[|a + b| - 1] == b[|b| - 1]
  {
  }

  lemma ConcatAssoc(x: seq<Handle>, y: seq<Handle>, z: seq<Handle>)
    ensures x + y + z == x + (y + z)
  {
  }

  lemma {:induction false} WithRoleAppend(a: seq<Handle>, b: seq<Handle>, internal: seq<Handle>, external: seq<Handle>,
                                          role: IndexType)
    ensures WithRole(a + b, internal, external, role)
            == WithRole(a, internal, external, role) + WithRole(b, internal, external, role)
    decreases |b|
  {
    if b != [] {
      var init := b[..|b| - 1];
      var last := b[|b| - 1];
      var tail := if RoleOf(last, internal, external) == Some(role) then [last] else [];
      var wa := WithRole(a, internal, external, role);
      var wi := WithRole(init, internal, external, role);
      assert WithRole(a + init, internal, external, role) == wa + wi by {
        WithRoleAppend(a, init, internal, external, role);
      }
      SnocSplit(a, b);
      assert WithRole(a + b, internal, external, role) == WithRole(a + init, internal, external, role) + tail;
      assert WithRole(b, internal, external, role) == wi + tail;
      ConcatAssoc(wa, wi, tail);
    } else {
      assert a + b == a;
    }
  }

  /**
   * Filtering by the role after classification picks the same entries, in
   * the same order, as filtering the untyped entries by the role the
   * occurrence counts give.
   */
  lemma {:induction false} ClassifiedFilter(hs: seq<Handle>, before: seq<MonomialIndex>, after: seq<MonomialIndex>,
                                            internal: seq<Handle>, external: seq<Handle>, role: IndexType)
    requires HandlesIn(hs, |before|) && |after| == |before|
    requires forall k :: 0 <= k < |hs| ==>
               (after[hs[k]].indexType == Some(role)
                <==> before[hs[k]].indexType.None? && RoleOf(hs[k], internal, external) == Some(role))
    ensures OfType(hs, after, Some(role)) == WithRole(OfType(hs, before, None), internal, external, role)
    decreases |hs|
  {
    if hs != [] {
      var init := hs[..|hs| - 1];
      var last := hs[|hs| - 1];
      assert hs == init + [last];
      ClassifiedFilter(init, before, after, internal, external, role);
      var filtered := OfType(init, before, None);
      if before[last].indexType.None? {
        assert OfType(hs, before, None) == filtered + [last];
        assert (filtered + [last])[..|filtered|] == filtered;
      } else {
        assert OfType(hs, before, None) == filtered;
      }
    }
  }

  /** The untyped basis-function indices the classification counts, in order. */
  function UntypedInternal(b: Builder): seq<Handle>
    requires b.WellFormed()
  {
    InternalIndices(b.basisFunctions, b.indices, None)
  }

  /** The untyped coefficient and transform indices the classification counts, in order. */
  function UntypedExternal(b: Builder): seq<Handle>
    requires b.WellFormed()
  {
    ExternalIndices(b.coefficients, b.transforms, b.indices, None)
  }

  /** The classification of the factor loop's result `b`. */
  function ClassificationOf(b: Builder): Classification
    requires b.WellFormed()
  {
    VisitUntyped(b);
    Classify(UntypedInternal(b) + UntypedExternal(b), UntypedInternal(b), UntypedExternal(b), b.indices)
  }

  /** `tm` is `b` with its successful classification applied. */
  ghost predicate ClassifiedFrom(tm: TransformedMonomial, b: Builder)
    requires b.WellFormed()
  {
    !ClassificationOf(b).failed && tm.indices == ClassificationOf(b).indices
    && tm.coefficients == b.coefficients && tm.transforms == b.transforms && tm.basisFunctions == b.basisFunctions
  }

  /** A successful transformation is the factor loop's result with the classification applied. */
  lemma TransformSpecOk(m: Monomial)
    requires TransformSpec(m).0.Ok?
    ensures Factors(m.factors).Ok?
    ensures ClassifiedFrom(TransformSpec(m).0.value, Factors(m.factors).value)
    ensures TransformSpec(m).1 == ClassificationOf(Factors(m.factors).value).counts
  {
  }

  /** The indices the classification visits are exactly the untyped ones, all in the arena. */
  lemma VisitUntyped(b: Builder)
    requires b.WellFormed()
    ensures var visit := InternalIndices(b.basisFunctions, b.indices, None) + ExternalIndices(b.coefficients, b.transforms, b.indices, None);
            HandlesIn(visit, |b.indices|)
            && forall k :: 0 <= k < |visit| ==> b.indices[visit[k]].indexType.None?
  {
    var internal := InternalIndices(b.basisFunctions, b.indices, None);
    var external := ExternalIndices(b.coefficients, b.transforms, b.indices, None);
    var visit := internal + external;
    forall k | 0 <= k < |visit| ensures visit[k] < |b.indices| && b.indices[visit[k]].indexType.None? {
      if k < |internal| {
        assert visit[k] == internal[k];
      } else {
        assert visit[k] == external[k - |internal|];
      }
    }
  }

  /** The classification invariant holds for the factor loop's result. */
  lemma ClassificationFacts(b: Builder)
    requires b.WellFormed()
    ensures ClassifyInvariant(ClassificationOf(b), UntypedInternal(b) + UntypedExternal(b), UntypedInternal(b),
                              UntypedExternal(b), b.indices)
  {
    VisitUntyped(b);
    ClassifyCorrect(UntypedInternal(b) + UntypedExternal(b), UntypedInternal(b), UntypedExternal(b), b.indices);
  }

  /** Whether an index of `hs` has role `role` after classification is decided by its occurrence counts. */
  lemma RoleAfterClassification(tm: TransformedMonomial, b: Builder, role: IndexType, hs: seq<Handle>)
    requires b.WellFormed() && ClassifiedFrom(tm, b) && role in {Secondary, Internal, External}
    requires HandlesIn(hs, |b.indices|)
    requires forall h :: h in hs && b.indices[h].indexType.None? ==> h in UntypedInternal(b) + UntypedExternal(b)
    ensures |tm.indices| == |b.indices|
    ensures forall k :: 0 <= k < |hs| ==>
              (tm.indices[hs[k]].indexType == Some(role)
               <==> b.indices[hs[k]].indexType.None?
                    && RoleOf(hs[k], UntypedInternal(b), UntypedExternal(b)) == Some(role))
  {
    ClassificationFacts(b);
    VisitUntyped(b);
    var c := ClassificationOf(b);
    var internal, external := UntypedInternal(b), UntypedExternal(b);
    forall k | 0 <= k < |hs|
      ensures tm.indices[hs[k]].indexType == Some(role)
              <==> b.indices[hs[k]].indexType.None? && RoleOf(hs[k], internal, external) == Some(role)
    {
      var h := hs[k];
      if b.indices[h].indexType.None? {
        VisitedAreTyped(c, internal + external, internal, external, b.indices, h);
      } else {
        assert h !in internal + external;
        assert tm.indices[h] == b.indices[h];
      }
    }
  }

  /** `extract_indices(role)` after classification is the visit order filtered by role. */
  lemma ExtractedInVisitOrder(tm: TransformedMonomial, b: Builder, role: IndexType)
    requires b.WellFormed() && ClassifiedFrom(tm, b) && role in {Secondary, Internal, External}
    ensures tm.WellFormed()
    ensures ExtractIndices(tm, Some(role))
            == WithRole(UntypedInternal(b) + UntypedExternal(b), UntypedInternal(b), UntypedExternal(b), role)
  {
    ExtractedInternalByRole(tm, b, role);
    ExtractedExternalByRole(tm, b, role);
    WithRoleAppend(UntypedInternal(b), UntypedExternal(b), UntypedInternal(b), UntypedExternal(b), role);
  }

  /** The argument indices of role `role` after classification are the untyped ones the counts give that role. */
  lemma ExtractedInternalByRole(tm: TransformedMonomial, b: Builder, role: IndexType)
    requires b.WellFormed() && ClassifiedFrom(tm, b) && role in {Secondary, Internal, External}
    ensures tm.WellFormed()
    ensures ExtractInternalIndices(tm, Some(role))
            == WithRole(UntypedInternal(b), UntypedInternal(b), UntypedExternal(b), role)
  {
    ClassificationFacts(b);
    var IA := InternalAll(b.basisFunctions);
    InternalAllIn(b.basisFunctions, |b.indices|);
    RoleAfterClassification(tm, b, role, IA);
    ClassifiedFilter(IA, b.indices, tm.indices, UntypedInternal(b), UntypedExternal(b), role);
  }

  /** The coefficient and transform indices of role `role` after classification, likewise. */
  lemma ExtractedExternalByRole(tm: TransformedMonomial, b: Builder, role: IndexType)
    requires b.WellFormed() && ClassifiedFrom(tm, b) && role in {Secondary, Internal, External}
    ensures tm.WellFormed()
    ensures ExtractExternalIndices(tm, Some(role))
            == WithRole(UntypedExternal(b), UntypedInternal(b), UntypedExternal(b), role)
  {
    ClassificationFacts(b);
    var EA := ExternalAll(b.coefficients, b.transforms);
    RoleAfterClassification(tm, b, role, EA);
    ClassifiedFilter(EA, b.indices, tm.indices, UntypedInternal(b), UntypedExternal(b), role);
  }

  /**
   * After classification, the distinct indices of role `role` in extraction
   * order carry ids 0, 1, ..., n - 1, and the counter of that role ends at n.
   */
  lemma UniqueIndicesNumberedFrom(tm: TransformedMonomial, b: Builder, role: IndexType)
    requires b.WellFormed() && ClassifiedFrom(tm, b) && role in {Secondary, Internal, External}
    ensures tm.WellFormed()
    ensures var u := Dedup(ExtractIndices(tm, Some(role)));
            |u| == CountFor(ClassificationOf(b).counts, role)
            && forall k :: 0 <= k < |u| ==> u[k] < |tm.indices| && tm.indices[u[k]].indexType == Some(role) && tm.indices[u[k]].indexId == Some(k)
  {
    ClassificationFacts(b);
    ExtractedInVisitOrder(tm, b, role);
    assert Numbered(ClassificationOf(b), UntypedInternal(b) + UntypedExternal(b), UntypedInternal(b), UntypedExternal(b),
                    b.indices, role);
  }

  /**
   * `extract_unique_indices(role)` for SECONDARY, INTERNAL or EXTERNAL lists
   * exactly the indices of that role, and the k-th of them has id k: the
   * ids of each role run 0, 1, ..., n - 1 in order of first occurrence, and
   * the module counter of that role ends at n.
   */
  lemma UniqueIndicesNumbered(m: Monomial, role: IndexType)
    requires TransformSpec(m).0.Ok? && role in {Secondary, Internal, External}
    ensures var tm := TransformSpec(m).0.value;
            var u := Dedup(ExtractIndices(tm, Some(role)));
            |u| == CountFor(TransformSpec(m).1, role)
            && forall k :: 0 <= k < |u| ==> u[k] < |tm.indices| && tm.indices[u[k]].indexType == Some(role) && tm.indices[u[k]].indexId == Some(k)
  {
    TransformSpecOk(m);
    var tm, b := TransformSpec(m).0.value, Factors(m.factors).value;
    UniqueIndicesNumberedFrom(tm, b, role);
    assert TransformSpec(m).1 == ClassificationOf(b).counts;
  }

  /**
   * After a successful factor loop, the transformation fails with the
   * contraction error exactly when some untyped index occurs other than
   * once inside and once outside, twice inside only, or twice outside only.
   */
  lemma ContractionErrorIff(m: Monomial)
    requires Factors(m.factors).Ok?
    ensures var b := Factors(m.factors).value;
            var internal, external := UntypedInternal(b), UntypedExternal(b);
            TransformSpec(m).0 == Err(ContractionError)
            <==> exists h :: h in internal + external && RoleOf(h, internal, external).None?
  {
    var b := Factors(m.factors).value;
    var internal, external := UntypedInternal(b), UntypedExternal(b);
    var visit := internal + external;
    ClassificationFacts(b);
    if SomeUnclassifiable(visit, internal, external) {
      var k :| 0 <= k < |visit| && RoleOf(visit[k], internal, external).None?;
      assert visit[k] in visit;
    }
    if exists h :: h in visit && RoleOf(h, internal, external).None? {
      var h :| h in visit && RoleOf(h, internal, external).None?;
      var k :| 0 <= k < |visit| && visit[k] == h;
      assert SomeUnclassifiable(visit, internal, external);
    }
  }

  /** The classification never changes an index that already had a role (FIXED or PRIMARY). */
  lemma TypedIndicesKept(m: Monomial)
    requires TransformSpec(m).0.Ok?
    ensures Factors(m.factors).Ok?
    ensures var b := Factors(m.factors).value;
            var tm := TransformSpec(m).0.value;
            |tm.indices| == |b.indices|
            && forall h :: 0 <= h < |b.indices| && b.indices[h].indexType.Some? ==> tm.indices[h] == b.indices[h]
  {
    TransformSpecOk(m);
    var b := Factors(m.factors).value;
    var visit := UntypedInternal(b) + UntypedExternal(b);
    ClassificationFacts(b);
    VisitUntyped(b);
    forall h | 0 <= h < |b.indices| && b.indices[h].indexType.Some?
      ensures h !in visit
    {
    }
  }
}
