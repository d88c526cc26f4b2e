# barman: the linear static analysis pipeline, in Dafny

This project models the core of barman, a small 2D frame and truss
finite-element library, and proves properties of the model. It covers the
pipeline that a linear static analysis runs:

- **DOF numbering.** `get_global_dof_map` numbers the DOFs of the prescribed
  displacements first, then the DOFs of every element. Each new global degree
  of freedom gets the current size of the dictionary. The essential DOFs form
  a set.
- **Assembly.** The global stiffness matrix K is a `dok_matrix`. The force
  vector F and the displacement vector D are dense vectors. Both are scattered
  by DOF index.
- **Partition.** The assembled system is split into the essential/free blocks
  `k_ee`, `k_ef`, `k_fe` and `k_ff` and the vector halves. There are two
  copies of this step, and both are modelled:
  - the destructive `popitem` copy nested in `LinearStatic.Equation`
    (barman/analysis.py);
  - the non-destructive `items()` copy in barman/equations.py.
- **Solve guard.** The guard in front of the sparse solve forms the effective
  load `f_f - k_fe·d_e`.
- **Elements and value objects.**
  - The element formulations: `Bar2` and `EulerBernoulli` DOF orders, local
    stiffness and mass matrices, transformation matrices, and the global
    stiffness `Tᵗ·k·T`.
  - The value equality and hashing of nodes, coordinate systems and global DOFs.
  - The append-only model container.

Code that changes state step by step is imperative Dafny:

- The dictionary-building loops, the `dok_matrix` writes, the `popitem` and
  `items()` loops, and the solve guard are methods. Each method is proved
  against a specification function: `RegisterAll`/`DofNumbering`, `Assemble`,
  `ScatterValues`, `BlockEntries`/`EntriesFit` and `EffectiveLoad`.
- The `dok_matrix`, the equation objects and the model container are classes.

Pure code stays pure. The element formulas and DOF lists, the value objects and
the partition geometry are functions, with lemmas about them.

The modules, one per file:

| module | file |
|---|---|
| `Outcomes` | exceptions, Option and Result |
| `Dofs` | barman/dofs.py |
| `Prescriptions` | prescribed displacements and forces |
| `Matrices` | dense numpy matrices |
| `Elements` | barman/elements.py, with the materials and sections |
| `Models` | barman/models.py |
| `Sparse` | `dok_matrix` and the converted blocks |
| `DofMaps` | the numbering |
| `Assembly` | the specification of the assembly loops |
| `Partition` | block routing and shapes |
| `Analysis` | barman/analysis.py |
| `Equations` | barman/equations.py |
| `Seqs` | sequence helper lemmas |

The finite-element method adds element contributions into K, but the code at
barman/analysis.py:214 assigns them. The model follows the
code (`Assign`) and defines the additive assembly beside it (`Accumulate`); see
Findings.

## Model

| member | source | states |
|---|---|---|
| Analysis.RegisterDofs | barman/analysis.py:168-170 | The inner loop registers an element's DOFs in order. A DOF that is already present keeps its index; a new one gets the map's size. |
| Analysis.NumberEssentialDofs | barman/analysis.py:159-164 | The first loop builds the map of the prescribed DOFs and the essential set. The set is exactly the DOFs that some prescription names, and a repeated DOF is numbered once. |
| Analysis.NumberElementDofs | barman/analysis.py:166-170 | The second loop registers the DOFs of every element, in element order, on top of the essential map. |
| Analysis.GetGlobalDofMap | barman/analysis.py:153-172 | Returns the dictionary `DofNumbering` (prescriptions first, then element DOFs) and the essential set. |
| DofMaps.Register | barman/analysis.py:169-170 | One registration adds the DOF to the keys, keeps every existing index, and gives a new DOF the index `|m|`. |
| DofMaps.RegisterNumbers | barman/analysis.py:164 | One registration keeps the map a bijection between its keys and the positions `0..N-1` of the insertion order. |
| DofMaps.RegisterAllNumbers | barman/analysis.py:160-170 | Registering a sequence numbers the DOFs by order of first appearance, with no gaps and no repeats. |
| DofMaps.RegisterAllKeeps | barman/analysis.py:169 | A DOF already in the map is never re-indexed. |
| DofMaps.RegisterAllKeys | barman/analysis.py:167-170 | The keys after registration are the old keys plus the registered DOFs, and nothing else. |
| DofMaps.RegisterAllAppend | barman/analysis.py:159-170 | Running the two loops one after the other is registering the concatenated DOF sequence. |
| DofMaps.ExtendPrefix | barman/analysis.py:164-170 | The insertion order only grows: the earlier order is a prefix, and it gains exactly the registered DOFs. |
| DofMaps.ElementDofsMembers | barman/analysis.py:166-167 | Every DOF of every element occurs in the sequence the second loop registers. |
| DofMaps.EssentialDofs | barman/analysis.py:160-163 | A DOF is in the essential set if and only if some prescribed displacement names it. |
| DofMaps.EssentialNumbering | barman/analysis.py:159-164 | After the first loop the keys are exactly the essential set, each numbered by its first prescription. |
| DofMaps.DofNumberingIsContiguous | barman/analysis.py:153-172 | The returned map is a bijection onto `0..N-1`, given by the insertion order. |
| DofMaps.EssentialDofsFirst | barman/analysis.py:159-170 | The essential DOFs hold exactly the indices below `|essential|`, in order of first prescription. |
| DofMaps.ElementDofsNumbered | barman/analysis.py:166-172 | The keys are exactly the essential DOFs plus the element DOFs, so every DOF of every element is numbered. |
| Analysis.EssentialWithinNumbering | barman/analysis.py:93-94 | On the model's own numbering, `N_free = len(dof_map) - N_essential` is never negative. |
| Assembly.Indices | barman/analysis.py:210 | The index list is defined if and only if every DOF is in the map, and its entries are the DOFs' indices. Otherwise it fails with KeyError. |
| Assembly.DistinctIndices | barman/analysis.py:210 | Under an injective numbering, distinct DOFs give distinct indices. |
| Assembly.IndexOf | barman/analysis.py:212-214 | The local position of a global index: the first slot of the index list that holds it. |
| Assembly.ScatterRowAt | barman/analysis.py:213-214 | After the inner loop has run over the first `b` columns of row `a`, only cells of that row whose column is among those `b` have changed, each to the element entry combined by `op`. |
| Assembly.ScatterRowsAt | barman/analysis.py:212-214 | After the outer loop has run over the first `a` rows, a cell whose row is among them and whose column is in the index list holds the combined element entry; every other cell is unchanged. |
| Assembly.LastRowAt | barman/analysis.py:212-214 | One pass of the outer loop, row `a-1`, changes only the cells in row `idx[a-1]` whose column is in the index list, each to the element entry combined by `op`. |
| Assembly.Put | barman/analysis.py:214 | One write changes only the target cell, to the contribution combined by `op`, and stores no zero. |
| Assembly.ElementScatterCells | barman/analysis.py:212-214 | After an element's double loop, cell `(idx[r], idx[c])` holds `k_elem[r][c]` (combined by `op`), and every cell outside the index list is unchanged. |
| Assembly.AssembledCells | barman/analysis.py:205-214 | After a successful assembly, every cell equals its reference value `Touch`. With `Assign` that is the entry of the last element that touches the cell; with `Accumulate` it is the sum over all such elements. |
| Assembly.AssembledInBounds | barman/analysis.py:202-214 | The assembled K is a valid `N × N` dok_matrix: all entries in range, no stored zeros. |
| Assembly.TouchSymmetric | barman/analysis.py:205-214 | The per-cell reference value is symmetric, because every element matrix `Tᵗ·k·T` is. |
| Assembly.AssembledSymmetric | barman/analysis.py:205-214 | The assembled K is symmetric with either `op`. |
| Assembly.AssembleFails | barman/analysis.py:205-214 | The assembly fails if and only if some element has an unmapped DOF, an index outside the matrix, or more DOFs than its matrix has rows. |
| Assembly.NumberedElementFitsMatrix | barman/analysis.py:202-210 | An element whose DOFs are all numbered, and that has no more DOFs than matrix rows, does not fail the assembly. |
| Assembly.AssembleStep | barman/analysis.py:205-214 | One more element fails the assembly exactly when the earlier ones did or it does. |
| Assembly.AssembleOneMore | barman/analysis.py:205-214 | An element that fits is scattered on top of the result for the earlier elements. |
| Assembly.AssembleOne | barman/analysis.py:205-214 | A single element that fits is scattered onto the empty matrix. |
| Assembly.AssembleTwo | barman/analysis.py:205-214 | Two elements that fit are scattered in list order, the second on top of the first. |
| Assembly.TwoScatters | barman/analysis.py:212-214 | A cell covered by both of two successive scatters holds their two entries combined by `op`. |
| Analysis.ScatterElementRow | barman/analysis.py:213-214 | The inner loop leaves row `a` equal to `ScatterRow`. It raises IndexError exactly when the DOF list is longer than the element matrix or some index lies outside K. |
| Analysis.ScatterElement | barman/analysis.py:212-214 | The double loop leaves K equal to `ElementScatter`. An index outside the shape raises IndexError. |
| Analysis.AssembleElement | barman/analysis.py:205-214 | One pass of the outer loop extends the assembled prefix by one element, or reports the error that the whole assembly returns. |
| Analysis.AssembleErrExtends | barman/analysis.py:205-214 | Once a prefix of the elements fails, the whole assembly fails with the same error. |
| Analysis.AssembleNext | barman/analysis.py:205-214 | The assembly of one more element is the scatter of its matrix at its DOFs' indices, or the KeyError of its lookup. |
| Analysis.GenerateGlobalStiffnessMatrix | barman/analysis.py:199-216 | Returns a fresh `N × N` dok_matrix holding `Assemble(op, …)`, or that specification's error. |
| Assembly.ScatterValuesLastWins | barman/analysis.py:226-232 | A successful vector scatter holds, at each index, the value of the last pair on that index. An index no pair names holds zero. |
| Assembly.ScatterValues | barman/analysis.py:222-232 | A successful scatter yields a vector of length N. |
| Analysis.ScatterValuesErrExtends | barman/analysis.py:226-232 | Once a prefix of the pairs fails, the whole loop fails with the same error. |
| Assembly.ScatterValuesFails | barman/analysis.py:226-232 | The scatter fails if and only if some pair's DOF is unmapped or indexed past N. When every index is below N, the failure is a KeyError. |
| Assembly.ForceVectorFailsOnUnmappedDof | barman/analysis.py:230 | On the model's numbering, F fails if and only if some force names an unnumbered DOF, and the failure is a KeyError. |
| Assembly.DisplacementVectorSucceeds | barman/analysis.py:244-250 | On the numbering of the same prescriptions, D cannot fail. |
| Assembly.DisplacementPairsOfPrescriptions | barman/prescribed_displacements.py:37-38 | The D loop reads one `(global_dof, value)` pair per prescription, in list order: the pair `get_values` returns, on the DOF that the numbering registered for it. |
| Analysis.ScatterIntoZeros | barman/analysis.py:222-232 | The shared vector loop returns `ScatterValues`: zeros of length N with each pair's value assigned, or its error. |
| Analysis.GenerateGlobalForceVector | barman/analysis.py:219-234 | F has length N. It succeeds if and only if every force's DOF is mapped to an index below N. |
| Analysis.GenerateGlobalDofVector | barman/analysis.py:237-252 | D has length N, and it succeeds on any map built from the same prescriptions. |
| Assembly.SharedCell | barman/analysis.py:212-214 | A cell that two elements both cover holds their two entries combined by `op`. With `Assign`, the first element's entry is lost. |
| Assembly.CollinearBarsOverwrite | barman/analysis.py:214 | For two collinear unit bars, the shared node's axial diagonal is 1 as written and 2 when accumulated. |
| Assembly.UnitBarsGeometry | barman/elements.py:92-97 | Both bars of that example have length 1 and lie along x. |
| Assembly.UnitBarsNumbered | barman/analysis.py:166-172 | Both bars of that example are numbered without failure, with distinct indices, and both reach the middle node's dx. |
| Assembly.UnitBarAxialDiagonal | barman/elements.py:70-77 | A unit bar along x with EA = 1 has global diagonal 1 at both axial slots. |
| Assembly.NumberedTwoNodeElement | barman/analysis.py:166-172 | A two-node element with distinct, numbered nodes fits the matrix with distinct indices. |
| Assembly.FittingElementHasTwoNodes | barman/elements.py:92-97 | An element with a length that does not fail the assembly has exactly two nodes, and they differ. |
| Assembly.AssembledElementsDistinct | barman/analysis.py:202-214 | When the assembly succeeds on a contiguous numbering, every element's index list is repeat-free, which `AssembledCells` and `AssembledSymmetric` require. |
| Assembly.AssembledStiffnessOfModel | barman/analysis.py:175-214 | On the model's own numbering, a successful assembly has every cell equal to `Touch` and is symmetric, with no further assumption. |
| Partition.PlacementRoundTrip | barman/equations.py:101-110 | Placing an entry in its block and re-offsetting it are inverse to each other. |
| Partition.BlockEntryOf | barman/equations.py:101-110 | Every entry of K is found in its block, at its block position, with its value. |
| Partition.BlockEntryAt | barman/equations.py:101-110 | Every entry of a block comes from K, at its re-offset position. |
| Partition.BlockEntriesRead | barman/equations.py:101-110 | Reading a block reads K at the re-offset position. |
| Partition.PartitionReassembles | barman/equations.py:101-110 | Every entry lands in exactly one block, and re-offsetting the blocks reproduces K. |
| Partition.BlockEntriesAdd | barman/equations.py:97-110 | Moving one more entry into the partition changes only its own block. |
| Partition.BlockEntryAdded | barman/equations.py:101-110 | After one more entry is moved in, a block entry is either that entry or an earlier one. |
| Partition.BlockStep | barman/analysis.py:106-115 | Writing the new entry to its block (and no other block) keeps each block equal to the handled entries of its kind. |
| Partition.PoppedOneMore | barman/analysis.py:102-103 | The remainder after one more pop is K less every handled key. |
| Partition.FitsDestinationsByEntry | barman/analysis.py:106-115 | Every block fits its declared shape if and only if every entry's block position fits. |
| Partition.IntendedPartitionFits | barman/equations.py:87-93 | With the blocks that equations.py uses, every entry of an `N × N` matrix fits its block. |
| Partition.IntendedEntriesFit | barman/equations.py:87-110 | The same fact, entry by entry. |
| Partition.AsWrittenPartitionOverflows | barman/analysis.py:97-113 | A symmetric 3-DOF system with one essential DOF cannot be partitioned as written. The intended routing fits it. |
| Partition.AsWrittenCouplingTransposed | barman/analysis.py:106-113 | When the two sizes agree and K is symmetric, the `k_fe` stored as written is the transpose of the intended `k_fe`. |
| Partition.PoppedStep | barman/analysis.py:102-103 | Taking one entry out of the remainder keeps remainder and handled entries a split of K. |
| Partition.DistributedStep | barman/analysis.py:102-115 | Writing one handled entry to its block keeps every block equal to the handled entries of its kind. |
| Partition.DistributedStart | barman/analysis.py:96-99 | Before the loop nothing is handled, and every block is empty. |
| Partition.DistributedAll | barman/analysis.py:102 | With nothing left, every entry has been handled and the blocks are K's blocks. |
| Partition.BlockEntriesOfSubEntries | barman/analysis.py:102-115 | The block entries of part of K are part of the block entries of K. |
| Partition.StoppedBlocksArePartial | barman/analysis.py:102-115 | When the loop stops at an entry that does not fit, the routing does not fit K and every block holds part of its block of K. |
| Partition.SplitAt | barman/analysis.py:124-131 | `numpy.split(v, [Ne])`: the halves concatenate to `v`. The first half has `Ne` entries, or all of them when `v` is shorter. |
| Sparse.Store | barman/analysis.py:214 | A write makes the key read `v` and leaves every other key as it was. A zero is removed rather than stored. |
| Sparse.Dot | barman/analysis.py:260 | `k_fe.dot(d_e)` has one entry per row. |
| Sparse.RowDotOfEmpty | barman/analysis.py:260 | A row with no stored entry contributes zero to the product. |
| Sparse.DokMatrix.constructor | barman/analysis.py:203 | `dok_matrix((rows, cols))` is an empty matrix of that shape. |
| Sparse.DokMatrix.Set | barman/analysis.py:214 | An in-shape write stores the value. An out-of-shape write is IndexError and changes nothing. |
| Sparse.DokMatrix.PopItem | barman/analysis.py:102-103 | Removes one stored entry and returns it. On an empty matrix it raises KeyError. |
| Sparse.DokMatrix.Snapshot | barman/analysis.py:118-121 | `tocsr()` keeps the shape and the entries. |
| Analysis.Route | barman/analysis.py:104-115 | A popped entry goes to `k_ee`, `k_fe`, `k_ef` or `k_ff` by the two comparisons, as written. It fails with IndexError exactly when its block position is outside the declared shape; every other block is unchanged. |
| Analysis.DrainStep | barman/analysis.py:102-115 | One `popitem` pass shrinks `k_global` and keeps the blocks equal to the popped entries. On IndexError the blocks hold exactly the entries popped before the failing one, `k_global` lacks those and the failing one, and the as-written routing does not fit. |
| Analysis.Drain | barman/analysis.py:102-115 | The loop succeeds if and only if every entry fits its as-written destination. It then leaves `k_global` empty and each block holding K's entries of its kind. On IndexError the blocks hold exactly the entries popped before the failing one, and `k_global` holds the rest less the failing one. |
| Analysis.DrainedAll | barman/analysis.py:102-115 | An empty `k_global` means every entry was popped and all of them fit. |
| Analysis.AsWrittenFitsFromBlocks | barman/analysis.py:96-115 | Blocks that fit the shapes they are stored under mean the as-written routing fits. |
| Analysis.PartitionBlocks | barman/analysis.py:96-121 | Creates the four blocks, drains K into them and converts them. It succeeds if and only if the as-written routing fits, and the blocks are then K's blocks. On IndexError each block holds part of its block of K and `k_global` holds part of K. |
| Analysis.Equation.constructor | barman/analysis.py:33-34 | A new equation starts out cleared. |
| Analysis.Equation.Clear | barman/analysis.py:38-47 | Every field becomes empty. |
| Analysis.Equation.SetDf | barman/analysis.py:78-80 | Only `d_f` changes. |
| Analysis.Equation.StoreBlocks | barman/analysis.py:96-121 | The four block fields receive the drained and converted blocks. The result is as for `PartitionBlocks`: the blocks of K and an empty `k_global` on success; on IndexError, part of each block and part of K. |
| Analysis.Equation.PartitionSystem | barman/analysis.py:96-131 | The partition after the type and size checks: it succeeds if and only if the as-written routing fits, then empties `k_global`, stores K's four blocks and splits D and F at `N_essential`. On IndexError D and F are untouched, each block holds part of its block of K, and `k_global` part of K. |
| Analysis.Equation.SetEquation | barman/analysis.py:86-131 | Raises TypeError without a dok_matrix, and ValueError when `N_free` is negative. Otherwise it succeeds if and only if the as-written routing fits; it then empties `k_global`, stores the four blocks, and splits D and F at `N_essential`. On IndexError D and F are untouched, each block holds part of its block of K, and `k_global` part of K. |
| Analysis.NewEquation | barman/analysis.py:33-36 | The constructor: cleared, given the DOF map, then `set_equation` with the same outcome, including the partial blocks and the partly drained `k_global` of an IndexError. |
| Analysis.EffectiveLoad | barman/analysis.py:260 | `f_f - k_fe·d_e` is defined exactly when the shapes line up, and otherwise is a ValueError. The result has length `N_free`. |
| Analysis.EffectiveLoadOfZeroDisplacements | barman/analysis.py:259-260 | With zero prescribed displacements the effective load is `f_f`. |
| Analysis.EffectiveLoadMovesKnownColumns | barman/analysis.py:260 | With the intended `k_fe`, free DOF `i` gets `F[Ne+i] - Σ_{j<Ne} K[Ne+i, j]·D[j]`. |
| Analysis.SolveEquation | barman/analysis.py:255-264 | With empty `d_e` the equation is untouched. Otherwise `d_f` becomes the solver's answer for `k_ff` and the effective load, and no other field changes. |
| Analysis.EffectiveLoadOfPartition | barman/analysis.py:259-262 | Blocks of the declared shapes give a well-formed effective load. |
| Analysis.AssembleSystem | barman/analysis.py:179-184 | Numbers the DOFs and assembles K and F, each equal to its specification or failing with its error. D cannot fail and is the scatter of the prescribed displacements' pairs. |
| Analysis.EquationAndSolve | barman/analysis.py:187-191 | The equation succeeds if and only if K's entries fit the as-written routing. When they do, the solve cannot fail. |
| Analysis.Run | barman/analysis.py:175-196 | The whole run. It returns the DOF numbering and the essential set, and fails only with K's error, F's error, or the partition's IndexError (exactly when K does not fit). When it succeeds and there are essential DOFs, `d_f` is the solve of `k_ff` against the effective load. |
| Equations.Route | barman/equations.py:99-110 | An entry goes to `k_ee`, `k_ef`, `k_fe` or `k_ff` as its row and column select. It fails exactly when its block position is outside its own block's shape; every other block is unchanged. |
| Equations.ScatterStep | barman/equations.py:97-110 | One `items()` pass keeps the blocks equal to the handled entries. On IndexError the blocks hold exactly the entries handled before the failing one, and K does not fit. |
| Equations.ScatterItems | barman/equations.py:97-110 | The loop succeeds if and only if every entry fits its block, and each block then holds K's entries of its kind. On IndexError the blocks hold exactly the entries handled before the failing one. `k_global` is not modified. |
| Equations.ScatteredAll | barman/equations.py:97-110 | With every entry handled, the blocks are K's blocks and they fit. |
| Equations.IntendedFitsFromBlocks | barman/equations.py:90-110 | Blocks that fit their own shapes mean the intended routing fits. |
| Equations.PartitionBlocks | barman/equations.py:90-116 | It succeeds if and only if the entries fit, and the blocks are then K's blocks. On IndexError each block holds part of its block of K. |
| Equations.LinearStatic.constructor | barman/equations.py:27-28 | A new equation starts out cleared. |
| Equations.LinearStatic.Clear | barman/equations.py:32-41 | The DOF map, all four blocks and all four vectors become empty. |
| Equations.LinearStatic.SetDf | barman/equations.py:72-74 | Only `d_f` changes. |
| Equations.LinearStatic.PartitionSystem | barman/equations.py:90-126 | The partition after the type and size checks: it succeeds if and only if K fits, and always does for an `N × N` K. It then stores K's four blocks and splits D and F at `N_essential`. On IndexError D and F are untouched and each block holds part of its block of K. |
| Equations.LinearStatic.SetEquation | barman/equations.py:80-126 | Raises TypeError without a dok_matrix, before any block is written, and ValueError when `N_free` is negative. Otherwise it succeeds if and only if K fits, and always does for K of the map's size. It stores K's four blocks and splits D and F at `N_essential`, leaving `k_global` as it was. On IndexError D and F are untouched and each block holds part of its block of K. |
| Equations.NewLinearStatic | barman/equations.py:27-30 | The constructor: cleared, given the DOF map, then `set_equation` with the same outcome, including the partial blocks of an IndexError. |
| Dofs.ParameterValue | barman/dofs.py:37-42 | Each member's value is below 6 and names that member. |
| Dofs.ParameterFromValue | barman/dofs.py:25-42 | `Parameter(v)` is defined exactly for `0 <= v < 6`, inverts the value, and is a ValueError otherwise. |
| Dofs.ParameterEnumeration | barman/dofs.py:37-42 | Exactly six distinct members, valued 0 to 5. |
| Dofs.CoordinateSystemEq | barman/dofs.py:71-74 | Equal exactly to a coordinate system with the same angle; another type is never equal. |
| Dofs.CoordinateSystemNe | barman/dofs.py:76-77 | `__ne__` is the negation of `__eq__`. |
| Dofs.NodeEq | barman/dofs.py:100-103 | Equal exactly when positions and coordinate systems are equal. |
| Dofs.NodeNe | barman/dofs.py:105-106 | `__ne__` is the negation of `__eq__`. |
| Dofs.GlobalDoFEq | barman/dofs.py:122-125 | Equal exactly when nodes and parameters are equal. |
| Dofs.GlobalDoFNe | barman/dofs.py:127-128 | `__ne__` is the negation of `__eq__`. |
| Dofs.NewNodeEquality | barman/dofs.py:86-103 | New nodes get the default coordinate system and keep their position, so two new nodes are equal if and only if their positions are. |
| Dofs.HashConsistentWithEquality | barman/dofs.py:79-134 | Equal coordinate systems, nodes and DOFs hash equally, whatever Python's hash functions are. |
| Prescriptions.PrescribedDofs | barman/analysis.py:160-161 | The DOFs of the prescriptions, in declaration order. |
| Elements.Bar2GlobalDofs | barman/elements.py:84-89 | Node-major: `[n.dx, n.dy]` for each node, 2·|nodes| in all. |
| Elements.EulerBernoulliGlobalDofs | barman/elements.py:165-170 | Parameter-major: every node's dx, then every node's dy, then every node's rz. |
| Elements.NodeDofs | barman/elements.py:168-169 | One parameter for every node, in node order. |
| Elements.GlobalDofs | barman/elements.py:55-57 | 2 DOFs per node for Bar2 and 3 for EulerBernoulli. |
| Elements.TwoNodeGlobalDofs | tests/test_elements.py:53-88 | For two nodes: `[n0.dx, n0.dy, n1.dx, n1.dy]` and `[n0.dx, n1.dx, n0.dy, n1.dy, n0.rz, n1.rz]`. |
| Elements.Direction | barman/elements.py:145-148 | The end-to-end vector of a planar element. |
| Elements.GeometryReadsEndNodesOnly | barman/elements.py:95-97 | Only `nodes[0]` and `nodes[-1]` enter the direction and length; intermediate nodes do not. |
| Elements.LengthSymmetric | barman/elements.py:95-97 | Swapping the end nodes reverses the direction and keeps the length. |
| Elements.DirectionCosines | barman/elements.py:149-152 | `r/L` is a unit vector. |
| Elements.UnitCosines | barman/elements.py:149-152 | A vector divided by its length has unit length. |
| Elements.Bar2Transformation | barman/elements.py:154-156 | The transformation is 2×4. |
| Elements.EulerBernoulliTransformation | barman/elements.py:254-261 | The transformation is 6×6. |
| Elements.Transformation | barman/elements.py:142-158 | `get_transformation_matrix` has shape local size × global DOF count. |
| Elements.Bar2LocalStiffness | barman/elements.py:110-122 | A symmetric 2×2 matrix. |
| Elements.EulerBernoulliLocalStiffness | barman/elements.py:198-216 | A symmetric 6×6 matrix. |
| Elements.Bar2LocalMass | barman/elements.py:125-139 | A symmetric 2×2 matrix. |
| Elements.EulerBernoulliLocalMass | barman/elements.py:219-238 | A symmetric 6×6 matrix. |
| Elements.LocalStiffness | barman/elements.py:110-122 | `get_local_stiffness_matrix` is square of the element's local size, and symmetric. |
| Elements.LocalMass | barman/elements.py:125-139 | `get_local_mass_matrix` is square of the element's local size, and symmetric. |
| Elements.GlobalStiffness | barman/elements.py:70-77 | `Tᵗ·k·T` is square, with side equal to T's column count. That side is the DOF count for two-node elements, and the result is symmetric. |
| Matrices.CongruenceSymmetric | barman/elements.py:75 | `Tᵗ·k·T` is symmetric for every T when k is. |
| Elements.Bar2RigidTranslation | barman/elements.py:117-120 | A rigid translation of a bar produces no end forces. |
| Elements.EulerBernoulliAxialTranslation | barman/elements.py:206-213 | The rigid axial translation lies in the kernel of the beam stiffness. |
| Elements.EulerBernoulliTransverseTranslation | barman/elements.py:206-213 | The rigid transverse translation lies in the kernel. |
| Elements.EulerBernoulliRigidRotation | barman/elements.py:206-213 | The rigid rotation about the start node lies in the kernel. |
| Elements.Bar2TotalMass | barman/elements.py:132-137 | Under a rigid translation the consistent mass carries ρAL. |
| Elements.EulerBernoulliTotalMass | barman/elements.py:226-236 | The same along both local axes. |
| Elements.TwoSlotQuadraticForm | barman/elements.py:226-236 | The quadratic form of a two-slot unit vector sums the four entries at those slots. |
| Elements.LinearElasticHasNoMass | barman/materials.py:25-29 | The constructor fixes the density at 0.0, so every mass matrix vanishes. |
| Elements.Bar2TransformationOrthonormal | barman/elements.py:154-156 | With unit cosines, `T·Tᵗ = I`. |
| Elements.Bar2GlobalStiffnessIsTrussMatrix | barman/elements.py:70-77 | A bar's global stiffness is the truss matrix `(EA/L)·d·dᵗ` with `d = [c, s, -c, -s]`. |
| Elements.Bar2GlobalStiffnessUnfolds | barman/elements.py:70-77 | A bar's global stiffness is the congruence of its own T and k. |
| Elements.Bar2LocalStiffnessEntries | barman/elements.py:117-120 | The bar's local stiffness is `EA/L·[[1, -1], [-1, 1]]`. |
| Elements.Bar2ProjectedStiffness | barman/elements.py:75 | `Tᵗ·k` for a bar has rows `(EA/L)·d[i]·[1, -1]`. |
| Elements.Bar2Congruence | barman/elements.py:75 | `Tᵗ·k·T` for a bar is the truss matrix. |
| Elements.OuterProduct | barman/elements.py:75 | Multiplying those rows by T gives `(EA/L)·d[i]·d[j]`. |
| Elements.NodeRotation | barman/elements.py:254-261 | The rotation acting on one node's translations is 2×2. |
| Elements.EulerBernoulliTransformationRotates | barman/elements.py:254-261 | The same rotation `[[c, s], [-s, c]]` acts on both nodes' translations, and it is orthogonal. |
| Elements.EulerBernoulliTransformationLayout | barman/elements.py:254-261 | The transformation is block-diagonal per node and passes rz through: node-major. |
| Elements.Bar2TransformationLayout | barman/elements.py:154-156 | Columns 0-1 belong to the start node and columns 2-3 to the end node. |
| Elements.Bar2DofsMatchLayout | barman/elements.py:87-88 | Bar2's DOF list matches the node-major layout of its matrices. |
| Elements.EulerBernoulliDofsMisaligned | barman/elements.py:168-169 | The beam's parameter-major list does not match: slot 1 is the end node's dx. |
| Elements.EulerBernoulliNodeMajorDofs | barman/elements.py:168-169 | The node-major beam list `[n.dx, n.dy, n.rz]` for each node. |
| Elements.EulerBernoulliNodeMajorDofsMatchLayout | barman/elements.py:206-213 | The node-major list matches the layout of the beam matrices. |
| Elements.HorizontalBarExample | tests/test_elements.py:9-66 | A bar from (0,0) to (2,0) has length 2, axis x, local stiffness `[[50, -50], [-50, 50]]` and 4 DOFs. |
| Models.LinearStatic.constructor | barman/models.py:27-37 | All four lists start empty. |
| Models.LinearStatic.Clear | barman/models.py:31-37 | All four lists become empty. |
| Models.LinearStatic.AppendElement | barman/models.py:40-43 | Appends at the end, with no check; the other lists are unchanged. |
| Models.LinearStatic.AppendPrescribedDisplacement | barman/models.py:53-59 | Raises TypeError and changes nothing for a non-prescription; otherwise appends at the end. |
| Models.LinearStatic.AppendPrescribedForce | barman/models.py:62-68 | Raises TypeError and changes nothing for a non-force; otherwise appends at the end. |
| Models.LinearStatic.AppendGlobalDofLink | barman/models.py:85-88 | Appends unconditionally; only the link list changes. |

## Left out

- `scipy.sparse.linalg.spsolve` (barman/analysis.py:262) is a foreign solver
  over floats. It is the parameter `solve` of `SolveEquation` and `Run`.
- `tocsr()` is modelled as `DokMatrix.Snapshot`: the same shape and entries, as
  a value.
- Floating point. All arithmetic is over exact reals.
- The length from `numpy.linalg.norm` needs a square root. It is passed in as
  `L`, and `IsLength` ties it to the end nodes (`L > 0`, `L·L` = the squared
  length). `Run` and `AssembleSystem` take one such length per element.
- `CoordinateSystem.get_transformation` (barman/dofs.py:58-69) needs sine and
  cosine, and nothing in the analysis calls it. The angle is kept only for
  equality and hashing.
- Python's hash values are abstract functions in `Hashing`. Only the
  consistency of hash with equality is stated.
- `get_shape_functions` (barman/elements.py:100-107, 181-195) is pure float
  evaluation that the analysis never calls.
- `Results` (barman/analysis.py:134-146) is a holder. `Run` returns the
  equation and the DOF map directly, with the essential set beside them.
- `GlobalDoFLink` (barman/dofs.py:137-141) is never read. Links are stored
  unchanged as `ModelObject`s.
- The property accessors of every class are the class fields themselves.
- numpy broadcasting and dtype conversions are left out. The vectors are
  `seq<real>` and `numpy.split` is `SplitAt`.
- The iteration order of `popitem` and `items()` is left open: any entry may
  come first. The results stated do not depend on that order, except which
  entry raises first when several do not fit.
- The example scripts, the packaging script and the test files are out of
  scope. The tests serve only as evidence for the element lemmas.
- Analysis.Run: it states the equation's DOF map and its solve, not its
  blocks. `NewEquation` and `Equation.SetEquation` state the blocks and the
  vector halves.
- Analysis.EquationAndSolve: like `Run`, it states the blocks only through
  `NewEquation`.
- Analysis.Equation.SetEquation and Equations.LinearStatic.SetEquation: with a
  negative `N_free` only `k_ee` has been replaced when scipy refuses the second
  shape. The scipy exception is modelled as ValueError, whatever its exact class.
- Analysis.Equation.SetEquation, Analysis.Equation.PartitionSystem,
  Analysis.Equation.StoreBlocks and Analysis.PartitionBlocks: on IndexError they state that each block holds part
  of its block of K and `k_global` part of K, not which entries. The exact
  state (the entries popped before the failing one, and `k_global` less those
  and the failing one) is stated one level down by `Analysis.Drain` and
  `Analysis.DrainStep`; carrying it up made the proofs too costly.
- Equations.LinearStatic.SetEquation, Equations.LinearStatic.PartitionSystem and
  Equations.PartitionBlocks: on IndexError they state that each block holds
  part of its block of K, not which entries. `Equations.ScatterItems` and
  `Equations.ScatterStep` state the exact blocks, for the same reason.
- Elements.GlobalStiffness: it states shape and symmetry. The entries are
  stated for Bar2 (`Bar2GlobalStiffnessIsTrussMatrix`), but not written out
  for EulerBernoulli.
- Elements.EulerBernoulliLocalStiffness: it states shape and symmetry. Its
  kernel, the rigid modes, is stated by the three EulerBernoulli translation
  and rotation lemmas.

## Findings

| source | as written | input that shows it | evidently intended | confidence | as-written member | corrected member |
|---|---|---|---|---|---|---|
| barman/analysis.py:214 | `k_global[global_i,global_j] = k_elem[local_i,local_j]`: each element overwrites the cells it shares with earlier elements | two collinear unit bars (0,0)-(1,0) and (1,0)-(2,0) with E = A = 1: the shared node's axial diagonal is 1 | `+=`, the finite-element assembly, giving 2 | high; not executed | Assembly.CollinearBarsOverwrite | Analysis.GenerateGlobalStiffnessMatrix |
| barman/analysis.py:106-113 | an essential-row/free-column entry goes to `k_fe[i, j-Ne]` and a free-row/essential-column entry to `k_ef[i-Ne, j]`, while `k_fe` is declared `N_free × N_essential` and `k_ef` is declared `N_essential × N_free` | a symmetric 3-DOF system with one essential DOF and a coupling K[0,2]: the entry goes to `k_fe[0,1]`, but `k_fe` has one column (IndexError) | the routing of barman/equations.py:101-110, which fits every `N × N` K | high; not executed | Partition.AsWrittenPartitionOverflows | Equations.LinearStatic.SetEquation |
| barman/elements.py:168-169 | EulerBernoulli DOFs are listed parameter-major `[n0.dx, n1.dx, n0.dy, n1.dy, n0.rz, n1.rz]`, while its stiffness and transformation matrices are laid out node-major | any two distinct nodes: slot 1 of the matrices is the start node's dy, but the DOF list puts the end node's dx there | the node-major order `[n0.dx, n0.dy, n0.rz, n1.dx, n1.dy, n1.rz]` | medium; not executed | Elements.EulerBernoulliDofsMisaligned | Elements.EulerBernoulliNodeMajorDofsMatchLayout |

For the first finding, `Analysis.GenerateGlobalStiffnessMatrix` takes the
combining operation as an argument. The run uses `Assign`, as written.
`Accumulate` is the corrected assembly, and `Assembly.AssembledCells` proves its
per-cell sums. For the second finding, `Partition.AsWrittenCouplingTransposed`
also shows the case where the sizes agree: the as-written routing then fits, but
it stores the transpose of the coupling block. The as-written routing is
modelled by `Analysis.Equation.SetEquation`, and the corrected one by the
equations.py copy.
