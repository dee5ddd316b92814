# FFC monomial transformation and UFLACS integral generator, in Dafny

This project models two parts of the FEniCS Form Compiler.

**The tensor representation's monomial transformation.** It takes a
monomial, a product of basis functions and coefficients with their
components and derivatives. From that it builds a *transformed
monomial*:

- one basis-function index per factor;
- one index per component and per derivative;
- the Jacobian transforms that the Piola mappings and the derivatives
  need, and the power of the Jacobian determinant.

It then classifies every free index by where it appears. An index used
once inside and once outside the integral is *secondary*. One used twice
inside is *internal*; one used twice outside is *external*. Each index
is numbered from the global counters.

**The UFLACS integral generator.** It emits the body of
`tabulate_tensor` as a statement tree, in this order:

1. the quadrature weight and point tables;
2. the precomputed element tables;
3. the reset of the element tensor;
4. for each number of quadrature points, in increasing order:
   - the piecewise unstructured partition (terminal definitions and
     intermediate assignments);
   - the piecewise dof-block accumulations;
   - the quadrature loop around the varying partitions.

It keeps a memo of how each vertex of the expression graph is accessed,
and collects the names of the operators it translated. The names decide
which headers are included.

Modules:

- `Base`: `Option` and `Result`.
- `Sorting`: Python's `sorted()` over a strict total order.
- `CodeTree`: the statement and expression nodes of the target language.
- `IntegralIR`: the intermediate representation the generator reads.
- `MonomialIndices`: `MonomialIndex`, its evaluation and offsets, and
  the index counters as the class `IndexCounters`.
- `MonomialTransformation`: the transformation, as functions with
  methods proved equal to them.
- `MonomialProperties`: lemmas about the transformation.
- `GenerationSpec`: the generator's operations as functions over values.
- `IntegralGeneration`: the class `IntegralGenerator`, whose methods
  update its operator-name set and access memo. Each is proved equal to
  its `GenerationSpec` function.
- `GenerationProperties`: lemmas about the generator.

Python object identity matters in the monomial transformation: an index
found again through `index_map` is the *same* object, and
classification mutates it in place. The model therefore keeps every
`MonomialIndex` in an arena (`seq<MonomialIndex>`). Everything else
refers to an index by its position in the arena (a `Handle`), and
Python's `is` and `==` on indices become handle equality.

## Model

| member | source | states |
|---|---|---|
| MonomialIndices.PyIndex | ffc/compiler/tensor/monomialtransformation.py:77-92 | Python list indexing: succeeds exactly when `-len <= k < len`, and a negative position counts from the end |
| MonomialIndices.Evaluate | ffc/compiler/tensor/monomialtransformation.py:71-93 | a FIXED index yields the first value of its range, whatever the bindings. Any other typed index fails with "missing index values" exactly when the values for its type are absent or empty. Otherwise it yields the value at its id, with Python's indexing of the list (negative ids count from the end). A typed index without an id fails as a non-integer list index. An untyped index is an error |
| MonomialIndices.Add | ffc/compiler/tensor/monomialtransformation.py:95-99 | type and id are kept, and every entry of the range is shifted by the offset |
| MonomialIndices.Sub | ffc/compiler/tensor/monomialtransformation.py:101-103 | type and id are kept, and every entry of the range is shifted down by the offset |
| MonomialIndices.AddComposes | ffc/compiler/tensor/monomialtransformation.py:95-99 | adding `a` then `b` equals adding `a + b` |
| MonomialIndices.SubUndoesAdd | ffc/compiler/tensor/monomialtransformation.py:95-103 | subtracting an offset undoes adding it |
| MonomialIndices.EvaluateAfterAdd | ffc/compiler/tensor/monomialtransformation.py:71-99 | shifting a FIXED index shifts its value by the offset; shifting any other index does not change its value |
| MonomialIndices.FixedIgnoresBindings | ffc/compiler/tensor/monomialtransformation.py:74-75 | a FIXED index evaluates the same under any bindings |
| MonomialIndices.LessOrdersById | ffc/compiler/tensor/monomialtransformation.py:68-69 | `<` is irreflexive, asymmetric and transitive; two indices are incomparable exactly when their ids are equal |
| MonomialIndices.IndexCounters.constructor | ffc/compiler/tensor/monomialtransformation.py:22-25 | all three counters start at 0 |
| MonomialIndices.IndexCounters.Reset | ffc/compiler/tensor/monomialtransformation.py:42-48 | all three counters are 0 again |
| MonomialIndices.IndexCounters.NextSecondary | ffc/compiler/tensor/monomialtransformation.py:27-30 | returns the old secondary counter, increments it, and leaves the other two counters unchanged |
| MonomialIndices.IndexCounters.NextInternal | ffc/compiler/tensor/monomialtransformation.py:32-35 | returns the old internal counter, increments it, and leaves the other two counters unchanged |
| MonomialIndices.IndexCounters.NextExternal | ffc/compiler/tensor/monomialtransformation.py:37-40 | returns the old external counter, increments it, and leaves the other two counters unchanged |
| MonomialIndices.DrawAfterReset | ffc/compiler/tensor/monomialtransformation.py:23-48 | after a reset, n draws from the secondary, internal or external counter return the ids 0, 1, …, n-1; that counter ends at n and the other two stay at 0 |
| MonomialTransformation.TransformEndpoint | ffc/compiler/tensor/monomialtransformation.py:158-165 | a FIXED endpoint is replaced by a new index, `endpoint - offset`; any other endpoint is the same instance, unchanged |
| MonomialTransformation.NewTransform | ffc/compiler/tensor/monomialtransformation.py:149-165 | the transform keeps its type, restriction and offset; both endpoints are valid handles; existing indices are untouched |
| MonomialTransformation.NewTransformEndpoints | ffc/compiler/tensor/monomialtransformation.py:149-165 | a non-FIXED endpoint is the very instance passed in. A FIXED endpoint is a new index appended to the arena, equal to the original shifted by the offset. The arena grows by one index per FIXED endpoint |
| MonomialTransformation.ResolveIndex | ffc/compiler/tensor/monomialtransformation.py:327-336 | a key already in `index_map` yields the very instance it got before, with nothing added. A new key yields one new index, FIXED for a fixed index and untyped otherwise, and the key then maps to it |
| MonomialTransformation.ResolvedComponents | ffc/compiler/tensor/monomialtransformation.py:325-338 | one index handle per component key; the arena only grows; the handles are valid |
| MonomialTransformation.ResolvedComponentsMap | ffc/compiler/tensor/monomialtransformation.py:325-338 | afterwards `index_map` binds each component key to that component's handle, and the keys it held before keep their entries |
| MonomialTransformation.ResolvedComponentsNewKeys | ffc/compiler/tensor/monomialtransformation.py:325-338 | the only keys added to `index_map` are component keys |
| MonomialTransformation.ExtractComponents | ffc/compiler/tensor/monomialtransformation.py:325-339 | the loop computes exactly `ResolvedComponents` |
| MonomialTransformation.MapComponent | ffc/compiler/tensor/monomialtransformation.py:248-274 | with no component, nothing changes. A component whose range has more than one value raises the mapping conflict exactly when its sub-elements' mappings differ. On success the Piola outcome holds: contravariant adds one J transform and lowers the determinant power by 1; covariant adds one JINV transform; otherwise nothing changes |
| MonomialTransformation.DerivativeStep | ffc/compiler/tensor/monomialtransformation.py:277-291 | one derivative adds exactly one fresh untyped index with range `range(gdim)`, appends it to the derivatives, and appends one JINV transform with offset 0 and the factor's restriction, whose first endpoint is that index |
| MonomialTransformation.DerivativeIndexResolved | ffc/compiler/tensor/monomialtransformation.py:277-291 | a key already in `index_map` keeps its instance. A new key is bound to one new index: FIXED with its value as range and id, or untyped over `range(gdim)`. The JINV transform's second endpoint is the key's instance, or a `- 0` copy of it when FIXED |
| MonomialTransformation.ExtractDerivative | ffc/compiler/tensor/monomialtransformation.py:278-291 | one loop iteration computes `DerivativeStep` |
| MonomialTransformation.ExtractDerivatives | ffc/compiler/tensor/monomialtransformation.py:277-291 | the derivative loop computes the fold of `DerivativeStep` |
| MonomialTransformation.ValueIndex | ffc/compiler/tensor/monomialtransformation.py:231-240 | the value index is one new index appended to the arena. For a basis function it is PRIMARY over `range(sdim)` with the function's count as id, and the coefficients are unchanged. For a coefficient function it is untyped over `range(sdim)`, and one coefficient (that index, the function's count) is appended |
| MonomialTransformation.OfType | ffc/compiler/tensor/monomialtransformation.py:346 | an index is kept iff it is in the input and has the given type |
| MonomialTransformation.OfTypeOccurrences | ffc/compiler/tensor/monomialtransformation.py:346 | each kept index occurs as often as in the input, and every other index does not occur |
| MonomialTransformation.RoleFor | ffc/compiler/tensor/monomialtransformation.py:313-323 | secondary iff one internal and one external occurrence; internal iff two internal and none external; external iff none internal and two external; otherwise no role |
| MonomialTransformation.TransformFactor | ffc/compiler/tensor/monomialtransformation.py:222-299 | one iteration of the factor loop computes `FactorStep` |
| MonomialTransformation.TransformFactors | ffc/compiler/tensor/monomialtransformation.py:222-299 | the factor loop computes `Factors` and stops at the first exception |
| MonomialTransformation.ClassifyIndices | ffc/compiler/tensor/monomialtransformation.py:301-323 | the classification loop, run on the counters after a reset, computes `Classify`: the indices and the final counter values |
| MonomialTransformation.TransformMonomial | ffc/compiler/tensor/monomialtransformation.py:206-323 | the constructor resets the counters, then computes exactly `TransformSpec`: the result and the counter values afterwards |
| MonomialTransformation.FactorsStayFailed | ffc/compiler/tensor/monomialtransformation.py:222-255 | once a factor raises, the later factors do not change the outcome |
| MonomialTransformation.ClassifyStaysFailed | ffc/compiler/tensor/monomialtransformation.py:303-323 | once an index cannot be classified, the outcome is fixed |
| MonomialTransformation.DedupProperties | ffc/compiler/tensor/monomialtransformation.py:360-366 | the unique list has the same members, no repeats, and keeps first-occurrence order |
| MonomialTransformation.ExtractUniqueIndices | ffc/compiler/tensor/monomialtransformation.py:360-366 | the loop computes `Dedup` of the extracted indices |
| MonomialProperties.DerivativeTransformsCount | ffc/compiler/tensor/monomialtransformation.py:277-291 | each derivative adds exactly one transform and one derivative; earlier transforms and derivatives are kept; no J transform is added |
| MonomialProperties.DerivativeTransformsShape | ffc/compiler/tensor/monomialtransformation.py:289-290 | every transform a derivative adds is JINV, with offset 0 and the factor's restriction |
| MonomialProperties.DerivativeMapKept | ffc/compiler/tensor/monomialtransformation.py:280-286 | the derivative loop never rebinds a key that `index_map` already holds |
| MonomialProperties.DerivativeReusesKnownIndex | ffc/compiler/tensor/monomialtransformation.py:277-291 | a derivative whose key `index_map` already binds to a non-FIXED index gets that very instance as its JINV transform's second endpoint |
| MonomialProperties.DerivativeJInvToKnown | ffc/compiler/tensor/monomialtransformation.py:277-291 | for such a derivative, the JINV transform runs from its own derivative index to the known instance, and the key stays bound to it |
| MonomialProperties.FactorDerivativesShare | ffc/compiler/tensor/monomialtransformation.py:277-299 | the same, stated for the builder after the factor's basis function is recorded |
| MonomialProperties.DerivativeSharesComponentIndex | ffc/compiler/tensor/monomialtransformation.py:242-291 | within one factor, a derivative whose key is also a (non-FIXED) component key gets a JINV transform from its derivative index to the component's own index instance |
| MonomialProperties.DerivativeIndicesFresh | ffc/compiler/tensor/monomialtransformation.py:279 | every derivative index is a fresh untyped index with range `range(gdim)`, distinct from every index that existed before |
| MonomialProperties.DerivativeIndicesIncrease | ffc/compiler/tensor/monomialtransformation.py:277-291 | the derivative indices are pairwise distinct, one new instance per derivative, even when the same key repeats |
| MonomialProperties.FactorStepPower | ffc/compiler/tensor/monomialtransformation.py:260-274 | a factor lowers the determinant power by exactly the number of J transforms it adds |
| MonomialProperties.FactorsPower | ffc/compiler/tensor/monomialtransformation.py:222-299 | after all factors, the power equals minus the number of J transforms |
| MonomialProperties.DeterminantPower | ffc/compiler/tensor/monomialtransformation.py:119-125 | the transformed monomial's determinant power is minus its number of J transforms, so never positive |
| MonomialProperties.FactorsRankAtMostOne | ffc/compiler/tensor/monomialtransformation.py:243-245 | if the factor loop succeeds, no factor had more than one component |
| MonomialProperties.FactorStepRank | ffc/compiler/tensor/monomialtransformation.py:243-245 | a factor with more than one component raises the rank error |
| MonomialProperties.RankErrorAtFirstWideFactor | ffc/compiler/tensor/monomialtransformation.py:222-245 | if the factors before the first wide one succeed, the whole transformation fails with the rank error |
| MonomialProperties.ClassifyCorrect | ffc/compiler/tensor/monomialtransformation.py:301-323 | on untyped indices, classification fails exactly when some visited index has no role. Otherwise each visited index gets its role. The indices of each role are numbered 0, 1, … in first-visit order, and each counter ends at the number of indices of its role |
| MonomialProperties.WithRoleAppend | ffc/compiler/tensor/monomialtransformation.py:355-358 | filtering by role distributes over concatenation |
| MonomialProperties.ExtractedInVisitOrder | ffc/compiler/tensor/monomialtransformation.py:341-358 | after classification, the indices extracted for a role are the visit order (internal, then external) filtered by that role, repeats included |
| MonomialProperties.UniqueIndicesNumbered | ffc/compiler/tensor/monomialtransformation.py:301-323 | the unique indices of a role are numbered exactly 0 … n-1 in order, and n is the final value of that role's counter |
| MonomialProperties.ContractionErrorIff | ffc/compiler/tensor/monomialtransformation.py:322-323 | once the factors succeed, the transformation fails with the summation error exactly when some untyped index does not occur exactly twice in one of the allowed ways |
| MonomialProperties.TypedIndicesKept | ffc/compiler/tensor/monomialtransformation.py:305-307 | classification skips typed indices (FIXED, PRIMARY): they are kept unchanged |
| GenerationSpec.SortedNumPointsOrdered | ffc/uflacs/generation/integralgenerator.py:96 | point counts are visited in increasing order |
| GenerationSpec.SortedNamesOrdered | ffc/uflacs/generation/integralgenerator.py:179 | table names are declared in lexicographic order |
| GenerationSpec.SortedBlocksOrdered | ffc/uflacs/generation/integralgenerator.py:264 | dof blocks are visited in lexicographic tuple order |
| GenerationSpec.FlaggedOrdered | ffc/uflacs/generation/integralgenerator.py:332 | the partition indices are exactly the flagged vertices, in increasing order |
| GenerationSpec.IncludeSet | ffc/uflacs/generation/integralgenerator.py:49-73 | `<cstring>` is always included; `<cmath>` iff a cmath operator was used; the boost header iff a Bessel function was used; nothing else is included |
| GenerationSpec.TensorReset | ffc/uflacs/generation/integralgenerator.py:193-213 | a comment, then either `A[0] = 0.0` (size 1) or a memzero of the whole tensor; either way it zeroes exactly the entries `0 <= k < product(shape)` |
| GenerationSpec.WrapQuadratureLoop | ffc/uflacs/generation/integralgenerator.py:228-241 | an empty body gives nothing; one point gives a comment and a scope; otherwise a loop over `0..num_points`; the body is kept unchanged in all non-empty cases |
| GenerationSpec.OperandAccesses | ffc/uflacs/generation/integralgenerator.py:351 | succeeds exactly when every operand is in the memo, and then lists their accesses in order; otherwise it fails on a missing operand |
| GenerationSpec.PartitionMemoGrowsByVisited | ffc/uflacs/generation/integralgenerator.py:383 | whether or not the loop completes, the memo gains only visited vertices, all of them vertices of the graph |
| GenerationSpec.UnstructuredPartition | ffc/uflacs/generation/integralgenerator.py:397-412 | only this point count's memo changes, and every memo still refers only to its own graph |
| GenerationSpec.QuadratureLoops | ffc/uflacs/generation/integralgenerator.py:216-241 | only this point count's memo changes, and every memo still refers only to its own graph |
| GenerationSpec.PointBody | ffc/uflacs/generation/integralgenerator.py:102-105 | only this point count's memo changes, and every memo still refers only to its own graph |
| GenerationSpec.PointsFold | ffc/uflacs/generation/integralgenerator.py:101-114 | the loop keeps the set of memo keys, and every memo still refers only to its own graph |
| GenerationSpec.FinishingStatements | ffc/uflacs/generation/integralgenerator.py:415-429 | fails exactly for expression integrals; otherwise adds nothing |
| GenerationSpec.PointBodies | ffc/uflacs/generation/integralgenerator.py:96-114 | afterwards there is one memo per point count, each referring only to its own graph |
| IntegralGeneration.BuildFactors | ffc/uflacs/generation/integralgenerator.py:270-299 | the factor list is `BlockFactors` |
| IntegralGeneration.WrapLoopNest | ffc/uflacs/generation/integralgenerator.py:311-316 | the reverse loop over axes builds `LoopNest` from axis 0 |
| IntegralGeneration.BuildAxisIndices | ffc/uflacs/generation/integralgenerator.py:277-286 | the loop computes `AxisIndices` |
| IntegralGeneration.BuildBlockStatement | ffc/uflacs/generation/integralgenerator.py:266-319 | one contribution computes `BlockStatement` |
| IntegralGeneration.BuildContributions | ffc/uflacs/generation/integralgenerator.py:265-319 | the contributions of one dof block compute `ContributionsFold` |
| IntegralGeneration.BuildBlocks | ffc/uflacs/generation/integralgenerator.py:264-321 | the loop over dof blocks computes `BlocksFold` |
| IntegralGeneration.IntegralGenerator.constructor | ffc/uflacs/generation/integralgenerator.py:31-44 | stores the IR and backend; the operator-name set and the memo start empty |
| IntegralGeneration.IntegralGenerator.GetIncludes | ffc/uflacs/generation/integralgenerator.py:47-75 | the headers of `IncludeSet` for the operator names seen so far, sorted |
| IntegralGeneration.IntegralGenerator.GenerateRuleTables | ffc/uflacs/generation/integralgenerator.py:136-158 | one quadrature rule computes `RuleTables` |
| IntegralGeneration.IntegralGenerator.GenerateRulesTables | ffc/uflacs/generation/integralgenerator.py:134-158 | the loop over rules computes `TablesFold` |
| IntegralGeneration.IntegralGenerator.GenerateQuadratureTables | ffc/uflacs/generation/integralgenerator.py:121-163 | computes `QuadratureTables` |
| IntegralGeneration.IntegralGenerator.GenerateTableDecls | ffc/uflacs/generation/integralgenerator.py:179-185 | the loop over table names computes `TableDecls` |
| IntegralGeneration.IntegralGenerator.GenerateTableGroup | ffc/uflacs/generation/integralgenerator.py:174-185 | one point count computes `TableGroup` |
| IntegralGeneration.IntegralGenerator.GenerateElementTablesFold | ffc/uflacs/generation/integralgenerator.py:173-185 | the loop over point counts computes `ElementTablesFold` |
| IntegralGeneration.IntegralGenerator.GenerateElementTables | ffc/uflacs/generation/integralgenerator.py:166-190 | computes `ElementTables` |
| IntegralGeneration.IntegralGenerator.VisitVertex | ffc/uflacs/generation/integralgenerator.py:335-383 | one vertex computes `PartitionStep`; only this point count's memo and the name set change |
| IntegralGeneration.IntegralGenerator.GeneratePartition | ffc/uflacs/generation/integralgenerator.py:324-394 | runs `PartitionFold` over the flagged vertices and stores its memo and names. It returns the definitions, then the array declaration and the assignments only when there are intermediates, or the error raised |
| IntegralGeneration.IntegralGenerator.GenerateUnstructuredPartition | ffc/uflacs/generation/integralgenerator.py:397-412 | computes `UnstructuredPartition`, result and new state |
| IntegralGeneration.IntegralGenerator.GenerateDofblockPartition | ffc/uflacs/generation/integralgenerator.py:244-321 | computes `DofBlockPartition` and changes nothing |
| IntegralGeneration.IntegralGenerator.GenerateQuadratureLoops | ffc/uflacs/generation/integralgenerator.py:216-241 | computes `QuadratureLoops`, result and new state |
| IntegralGeneration.IntegralGenerator.GeneratePointBody | ffc/uflacs/generation/integralgenerator.py:102-105 | computes `PointBody`, result and new state |
| IntegralGeneration.IntegralGenerator.GeneratePointBodies | ffc/uflacs/generation/integralgenerator.py:101-114 | computes `PointsFold`, result and new state |
| IntegralGeneration.IntegralGenerator.Generate | ffc/uflacs/generation/integralgenerator.py:78-118 | computes `Generate`, result and new state |
| GenerationProperties.PartitionSlotsContiguous | ffc/uflacs/generation/integralgenerator.py:371-377 | the j-th intermediate assigns slot `symbol[j]`: slots are numbered contiguously from 0 |
| GenerationProperties.PartitionMemoKeys | ffc/uflacs/generation/integralgenerator.py:383 | on completion, the memo holds exactly its old keys plus the visited vertices |
| GenerationProperties.PartitionCompletesIffReady | ffc/uflacs/generation/integralgenerator.py:351 | the partition completes exactly when every operator's operands are in the memo or visited earlier (topological order) |
| GenerationProperties.PartitionCounts | ffc/uflacs/generation/integralgenerator.py:354-377 | on completion there is one intermediate per visited non-condition operator, and the name set gains exactly the visited operators' handler names |
| GenerationProperties.PartitionMemoValues | ffc/uflacs/generation/integralgenerator.py:341-383 | on completion every visited vertex is in the memo. A terminal maps to its backend access. A stored operator maps to a slot whose intermediate assigns that slot. A condition is inlined: it maps to the backend's translation of the condition itself |
| GenerationProperties.LoopAxes | ffc/uflacs/generation/integralgenerator.py:313-316 | the loop axes are the non-quadrature axes in range |
| GenerationProperties.LoopAxesExact | ffc/uflacs/generation/integralgenerator.py:313-316 | an axis gets a loop iff it is not a quadrature axis; the axes increase from outermost to innermost |
| GenerationProperties.LoopNestInnermost | ffc/uflacs/generation/integralgenerator.py:309-316 | the innermost statement of the nest is the accumulation itself |
| GenerationProperties.LoopNestHeaders | ffc/uflacs/generation/integralgenerator.py:313-316 | from outermost in, the loops run over the loop axes in increasing order. The loop for axis i has index `ia_i` and the bounds `dofblock[i]` |
| GenerationProperties.TableAxesExact | ffc/uflacs/generation/integralgenerator.py:289-292 | an axis contributes a table access iff its type is neither quadrature nor ones; the axes are in increasing order |
| GenerationProperties.TableAccessesPerAxis | ffc/uflacs/generation/integralgenerator.py:289-299 | one backend access per such axis, in axis order |
| GenerationProperties.BlockFactorsShape | ffc/uflacs/generation/integralgenerator.py:272-299 | succeeds iff the factor is a literal 1 or in the memo, and no axis is a zeros table. The factor list is the memo access (omitted for a literal 1), then the table accesses in axis order |
| GenerationProperties.BlockStatementShape | ffc/uflacs/generation/integralgenerator.py:277-316 | the statement accumulates into `A` at the flattened index of the axis indices. The quadrature axes use `iq`, the others `ia_i`. The value is the product of the factors, or 1.0 iff there are none. The loop headers are those of `LoopNestHeaders` |
| GenerationProperties.ContributionsAccumulate | ffc/uflacs/generation/integralgenerator.py:265-319 | one statement per contribution, each accumulating into the tensor |
| GenerationProperties.BlocksAccumulate | ffc/uflacs/generation/integralgenerator.py:264-321 | one statement per contribution of every dof block, each accumulating into the tensor |
| GenerationProperties.DofBlockPartitionAccumulates | ffc/uflacs/generation/integralgenerator.py:244-321 | dof blocks are visited in sorted order, and every emitted statement accumulates into the tensor |
| GenerationProperties.RuleTablesDecls | ffc/uflacs/generation/integralgenerator.py:136-158 | succeeds iff the rule's shape assertions hold. The weights array is declared iff the rule needs weights. The points array is declared iff the point dimension is non-zero and the rule needs points. Every statement is an array declaration. The weights array has `num_points` entries and the points array `num_points * pointdim` |
| GenerationProperties.TablesFoldDecls | ffc/uflacs/generation/integralgenerator.py:134-158 | the loop succeeds iff every rule passes its checks, and then declares and sizes each rule's tables as `RuleTablesDecls` says |
| GenerationProperties.QuadratureTablesDecls | ffc/uflacs/generation/integralgenerator.py:121-163 | custom, cutcell, interface, overlap and vertex integrals get no tables. For the others: success iff every rule passes; weights and points are declared for exactly the point counts that need them, with `num_points` and `num_points * pointdim` entries |
| GenerationProperties.TableDeclsDeclare | ffc/uflacs/generation/integralgenerator.py:179-185 | a symbol is declared iff it is a table named in the list |
| GenerationProperties.TableGroupDeclares | ffc/uflacs/generation/integralgenerator.py:174-185 | a point count declares exactly its unique tables |
| GenerationProperties.ElementTablesFoldDeclares | ffc/uflacs/generation/integralgenerator.py:173-185 | the loop declares exactly the tables of the point counts visited |
| GenerationProperties.ElementTablesDeclared | ffc/uflacs/generation/integralgenerator.py:166-190 | the element tables declare exactly the unique tables of every point count |
| GenerationProperties.PointsFoldScopes | ffc/uflacs/generation/integralgenerator.py:101-112 | with wrapping, each point count contributes exactly one scope |
| GenerationProperties.PointBodiesScopes | ffc/uflacs/generation/integralgenerator.py:111-112 | with several point counts, the output has one scope per point count and nothing else |
| GenerationProperties.PointBodiesSingle | ffc/uflacs/generation/integralgenerator.py:113-114 | with a single point count, its body is spliced in directly, starting from an empty memo |
| GenerationProperties.GenerateFailsForExpression | ffc/uflacs/generation/integralgenerator.py:422-423 | `generate` always fails for an expression integral |
| GenerationProperties.GenerateStartsAfresh | ffc/uflacs/generation/integralgenerator.py:99 | the output does not depend on the memo held before the call |
| GenerationProperties.GenerateValue | ffc/uflacs/generation/integralgenerator.py:86-116 | on success, the output is the quadrature tables, then the element tables, then the tensor reset, then the point bodies |
| GenerationProperties.GenerateOutcome | ffc/uflacs/generation/integralgenerator.py:86-89 | on success, the output starts with the tables and the tensor reset |
| GenerationProperties.GenerateMemo | ffc/uflacs/generation/integralgenerator.py:99-114 | on success, there is one memo per point count, each referring only to its own graph |
| GenerationProperties.GenerateScopes | ffc/uflacs/generation/integralgenerator.py:107-112 | on success, everything after the tables and the reset is a scope, one per point count |

## Left out

- The element provider (`create_element` and its methods) is given as data per factor: the dimensions, and a map from component to sub-element mapping and offset. A component missing from that map stands for an exception raised by the provider.
- UFL analysis (`is_modified_terminal`, `analyse_modified_terminal`, `isinstance(v, Condition)`, literal detection) is represented by the shape of each graph vertex (terminal or operator, with an is-condition flag, or a literal-one flag).
- The backend's `access`, `definitions` and `ufl_to_language` are total functions held by a `Backend` value, and their results are opaque. The symbol factory and the language nodes are free constructors.
- `L.commented_code_list` is not part of this model. `CodeTree.Commented` models it: an empty list stays empty, and a non-empty list gets leading comments. Comment and verbatim text are tags, not strings.
- `L.flattened_indices` is not part of this model. It appears as an uninterpreted `FlattenedIndex` node over the axis indices and the tensor shape.
- The `memset` text of the tensor reset is the `Memzero` node over the tensor and its size.
- Numeric table contents (quadrature points, weights, element tables) are left out. Only their shapes and names matter.
- The checks of one quadrature rule become error results, in the source's order. The assertion at integralgenerator.py:137 becomes `WeightsMismatch`. The `KeyError` of `expr_irs[num_points]` at line 138 becomes `MissingExprIR`. The `IndexError` of `points[0]` on an empty points array at line 147 becomes `NoPoints`. The assertion at line 148 becomes `PointsMismatch`. The assertion at line 149 (`pdim == points.shape[1]`) holds by construction: a `QuadratureRule` carries a single point dimension. The zeros-table assertion at integralgenerator.py:291 is also an error result.
- The memo `vaccesses` is keyed by vertex position, not by the UFL expression object.
- The integral type string is an enumeration.
- `L.StatementList` is a sequence of statements.
- `sorted()` over point counts, table names and dof-block tuples is a sort by strict total order.
- `MonomialIndices.Evaluate`: the unknown-type branch at monomialtransformation.py:93 reads a missing attribute (`self.type`). That raises an attribute error instead of the intended message. Both are modelled as the same error result.
- The module-global index counters are the fields of one `IndexCounters` object passed to the transformation.
- Aliasing of index range lists is not modelled; ranges are values. `MonomialIndex(index)` copies its range anyway.
- `__str__` of every class, the whole of `ffc/plot.py`, and the unused `alternative_generate_partition` (integralgenerator.py:432-510) are left out.
- `FunctionRef` has two variants, basis function and coefficient function. The if/elif at monomialtransformation.py:231-240 has no else branch: any other kind of function would leave `vindex` unbound, or stale from the previous factor. The model does not represent such a function.
- `MonomialCoefficient`, `MonomialBasisFunction` and `MonomialDeterminant` are plain records, with no operations of their own.
- `error(...)` and `raise MonomialException` are error results. Python's exception objects and messages are not modelled.
