# FSIHandler index bookkeeping, modelled in Dafny

`FSIHandler` (LifeV, `lifev/fsi_blocks/solver/FSIHandler.cpp`) sets up a
monolithic fluid–structure interaction problem. It couples a fluid (velocity
and pressure), a structure (displacement), a Lagrange multiplier on the
fluid–structure interface and an ALE mesh-motion problem. All numerics are
done by library objects. What `FSIHandler` does itself is integer index
bookkeeping. This project models that bookkeeping and proves what it
achieves.

- **Interface DOF lists** (`createInterfaceMaps`).
  - The rank-local fluid→structure DOF map is turned into two id lists, one per side.
  - Each list holds one copy per space dimension; copy `dim` is shifted by `dim · numTotalDof` of its side.
  - `InterfaceMaps.dfy`.
- **Multiplier numbering** (`constructInterfaceMap`).
  - First, the exclusive prefix sum of the per-rank interface counts, computed in place by a shift loop and an accumulate loop.
  - Second, sequential ids for the interface points this rank owns, starting at `offset[pid] / nDimensions`, together with the floating-point consistency check.
  - Third, the coupling (Lagrange multiplier) id list, with stride `M_interface`.
  - `InterfaceNumbering.dfy` models one rank.
  - `GlobalNumbering.dfy` proves about all ranks together that the numbering is gap-free, under two hypotheses. First, every rank's gathered count is `nDimensions` times the number of interface points it owns (its unique structure interface map holds exactly `nDimensions` ids per owned point). Second, every rank's interface map is injective, so that its coupling list is its consecutive id block. Then the interface points get `0 … N−1`, and the multiplier map is exactly `0 … nDimensions·N − 1` with no duplicates.
- **Monolithic block layout** (`buildMonolithicMap`, the `subset` calls of the time loop, `applyBCsolution`, `applyBCresidual`, `evalResidual`, `initializeApplyOperator`).
  - There are five blocks in a fixed order, each at the partial sum of the sizes before it.
  - Block extraction and insertion touch only their own block.
  - The boundary conditions change only the velocity, displacement and mesh blocks.
  - The residual's right-hand side has zero pressure and mesh blocks.
  - The 5 × 5 operator pattern has exactly ten non-null blocks.
  - `MonolithicLayout.dfy`.
- **Shared helpers.** The `Option` type (a possibly null pointer or operator block), sums, integer ranges, distinctness, sets of elements and flattening are in `SeqUtil.dfy`.

Modelling choices:

- The `std::map<ID, ID>` is the sequence of its entries in iteration order (`LocalDofMap`).
- A `MapEpetra` is a sequence of global ids, and `LID(x) >= 0` is read as membership in the rank's unique map (`uniqueIds`).
- The MPI broadcast of the counts is a given sequence `broadcastCounts`, one entry per rank. The entry of the rank itself is replaced by its own count, as the source writes it before the broadcast.
- `NumGlobalElements()` of the unique structure interface map is the sum of the gathered counts.
- The numeration vector is a `map` from structure DOF to id.
- Vectors that the source updates in place (`M_solution`, `residual`, the right-hand side) are `array<real>`. Block vectors are `seq<real>`.
- Each boundary-condition manager (`bcManageRhs`) is an arbitrary length-preserving function of the block and the scaling factor.
- The apply operator's product is a parameter of `EvalResidual`.
- For a block's own map, `subset` is read as a contiguous copy. This assumes the map numbers that block's vector 0 … size−1.

## Model

| member | source | states |
|---|---|---|
| InterfaceMaps.CreateInterfaceMaps | lifev/fsi_blocks/solver/FSIHandler.cpp:316-355 | Both lists have nDimensions·\|m\| entries. The fluid entry at dim·\|m\|+k is key k + dim·(fluid numTotalDof), and the structure entry is value k + dim·(structure numTotalDof). Each list is the per-dimension replication, and each pointer is null exactly when its list is empty. |
| InterfaceMaps.ReplicateSide | lifev/fsi_blocks/solver/FSIHandler.cpp:322-327 | The nested loop over dimensions and map entries produces the dimension copies in order, copy dim shifted by dim·stride. |
| InterfaceMaps.ListPointer | lifev/fsi_blocks/solver/FSIHandler.cpp:329-333 | The pointer given to MapEpetra is null exactly for an empty list, and otherwise a valid index. |
| InterfaceMaps.ReplicatedLength | lifev/fsi_blocks/solver/FSIHandler.cpp:322-327 | The replicated list has nDimensions·\|ids\| entries. |
| InterfaceMaps.ReplicatedAt | lifev/fsi_blocks/solver/FSIHandler.cpp:322-327 | Entry dim·\|ids\|+k of the replicated list is ids[k] + dim·stride. |
| InterfaceMaps.ReplicatedMember | lifev/fsi_blocks/solver/FSIHandler.cpp:322-327 | A value is in the replicated list if and only if it is ids[k] + dim·stride for some dimension dim and entry k. |
| InterfaceMaps.ReplicatedBounds | lifev/fsi_blocks/solver/FSIHandler.cpp:322-327 | Ids below the stride give replicated entries below nDimensions·stride. |
| InterfaceMaps.ReplicatedDistinct | lifev/fsi_blocks/solver/FSIHandler.cpp:322-327 | Distinct ids below the stride give a replicated list without duplicates. The stride keeps the dimension copies disjoint. |
| InterfaceMaps.FluidListDistinct | lifev/fsi_blocks/solver/FSIHandler.cpp:316-327 | With ascending keys and every key below the fluid numTotalDof, the fluid interface list repeats no id. |
| InterfaceMaps.StructureListDistinct | lifev/fsi_blocks/solver/FSIHandler.cpp:337-346 | With an injective matching and every value below the structure numTotalDof, the structure interface list repeats no id. |
| InterfaceMaps.EmptyInterfaceLists | lifev/fsi_blocks/solver/FSIHandler.cpp:316-355 | An empty interface map gives two empty lists. |
| InterfaceNumbering.ExclusiveScanSteps | lifev/fsi_blocks/solver/FSIHandler.cpp:376-384 | offset[0] = 0. offset[j+1] = offset[j] + counts[j]. The last offset plus the last count is the total. |
| InterfaceNumbering.ExclusiveScanMonotone | lifev/fsi_blocks/solver/FSIHandler.cpp:376-384 | For non-negative counts, the offsets are non-negative, nondecreasing and at most the total. |
| InterfaceNumbering.ShiftCounts | lifev/fsi_blocks/solver/FSIHandler.cpp:376-380 | After the downward loop and `numInterfaceDof[0] = 0`, each entry holds the previous rank's original count and entry 0 is 0. |
| InterfaceNumbering.AccumulateCounts | lifev/fsi_blocks/solver/FSIHandler.cpp:381-384 | The accumulate loop turns the shifted counts into the exclusive prefix sum of the original counts. |
| InterfaceNumbering.ShiftAndAccumulate | lifev/fsi_blocks/solver/FSIHandler.cpp:376-384 | The array afterwards holds the exclusive prefix sum of its original contents. |
| InterfaceNumbering.OwnedPairsFrom | lifev/fsi_blocks/solver/FSIHandler.cpp:391 | Every kept entry is an entry of the map whose structure DOF is in the rank's unique map. |
| InterfaceNumbering.NumerationKeys | lifev/fsi_blocks/solver/FSIHandler.cpp:389-400 | The numeration holds an id for a structure DOF if and only if that DOF occurs in the interface map and the rank owns it. |
| InterfaceNumbering.NumerationSequential | lifev/fsi_blocks/solver/FSIHandler.cpp:389-400 | For an injective map, the k-th owned entry in key order gets id base + k. |
| InterfaceNumbering.CheckedId | lifev/fsi_blocks/solver/FSIHandler.cpp:394 | floor(l + offset/nDimensions + 0.2) equals the integer id l + offset/nDimensions, so the check compares equal values. |
| InterfaceNumbering.NumberInterface | lifev/fsi_blocks/solver/FSIHandler.cpp:386-400 | The loop's numeration is the sequential numbering from offset/nDimensions. The counter l ends as the number of owned entries. The error message is never reached. |
| InterfaceNumbering.OwnedNumbersAt | lifev/fsi_blocks/solver/FSIHandler.cpp:405-413 | The ids read back for the owned entries are, position for position, the numeration's ids of the owned entries. |
| InterfaceNumbering.NumerationCoversOwned | lifev/fsi_blocks/solver/FSIHandler.cpp:389-411 | Every owned entry's structure DOF has a numeration id when the coupling loop reads it. |
| InterfaceNumbering.OwnedNumbersConsecutive | lifev/fsi_blocks/solver/FSIHandler.cpp:389-413 | For an injective map, the ids read back are exactly base, base+1, …, base+owned−1. |
| InterfaceNumbering.CollectCoupling | lifev/fsi_blocks/solver/FSIHandler.cpp:402-413 | couplingVector is the owned entries' ids replicated over the dimensions with stride M_interface. |
| InterfaceNumbering.UnguardedPointer | lifev/fsi_blocks/solver/FSIHandler.cpp:416 | `&couplingVector[0]` as written: it is defined only for a non-empty list. |
| InterfaceNumbering.NoOwnedPointsNoCoupling | lifev/fsi_blocks/solver/FSIHandler.cpp:402-416 | A rank that owns none of its interface entries collects an empty coupling list, so it fails UnguardedPointer's requirement. |
| InterfaceNumbering.ConstructInterfaceMap | lifev/fsi_blocks/solver/FSIHandler.cpp:357-417 | The offsets are the exclusive prefix sum of the gathered counts, with the rank's own count in place. The numeration is sequential from offset[pid]/nDimensions, and l is the owned count. The check never fires. couplingVector is the owned ids replicated with stride Σcounts/nDimensions, which for an injective map is the rank's consecutive id block. The map pointer is null exactly when the list is empty (corrected at 416; see ## Findings). |
| GlobalNumbering.ScaledScanBase | lifev/fsi_blocks/solver/FSIHandler.cpp:376-393 | When every rank's count is nDimensions·owned, offset[r]/nDimensions is the number of points owned by the ranks before r. |
| GlobalNumbering.ScaledTotal | lifev/fsi_blocks/solver/FSIHandler.cpp:388 | With those counts, M_interface is the total number N of owned interface points. |
| GlobalNumbering.RanksTile | lifev/fsi_blocks/solver/FSIHandler.cpp:376-400 | The consecutive id blocks of the first k ranks concatenate to 0 … (owned of those ranks)−1. |
| GlobalNumbering.GapFreeInterfaceIds | lifev/fsi_blocks/solver/FSIHandler.cpp:357-400 | When every rank's count is nDimensions times its owned points, the dimension-0 ids across all ranks in rank order are exactly 0, 1, …, N−1. |
| GlobalNumbering.FindRank | lifev/fsi_blocks/solver/FSIHandler.cpp:376-400 | Every interface id below N falls in the id block of some rank. |
| GlobalNumbering.MultiplierBlocks | lifev/fsi_blocks/solver/FSIHandler.cpp:402-413 | When every rank's count is nDimensions times its owned points, the coupling list of each rank with an injective map is its consecutive block replicated with stride N. |
| GlobalNumbering.MultiplierLength | lifev/fsi_blocks/solver/FSIHandler.cpp:402-416 | When every rank's count is nDimensions times its owned points, the map made of the ranks' coupling lists (injective maps) has nDimensions·N entries. |
| GlobalNumbering.MultiplierMemberBounded | lifev/fsi_blocks/solver/FSIHandler.cpp:402-416 | When every rank's count is nDimensions times its owned points, every id of the ranks' coupling lists (injective maps) lies in 0 … nDimensions·N−1. |
| GlobalNumbering.MultiplierMemberCovers | lifev/fsi_blocks/solver/FSIHandler.cpp:402-416 | When every rank's count is nDimensions times its owned points, every id in 0 … nDimensions·N−1 is in some rank's coupling list (injective maps). |
| GlobalNumbering.GapFreeMultiplierMap | lifev/fsi_blocks/solver/FSIHandler.cpp:357-417 | When every rank's count is nDimensions times its owned points and every rank's map is injective, the Lagrange multiplier map is a bijection onto 0 … nDimensions·N−1. It has that length, holds exactly those ids, and repeats none. |
| GlobalNumbering.CountsFromRanks | lifev/fsi_blocks/solver/FSIHandler.cpp:362-374 | When each rank's unique structure interface map holds nDimensions ids per owned point, the gathered counts are nDimensions times the owned counts. |
| GlobalNumbering.GapFreeFromRanks | lifev/fsi_blocks/solver/FSIHandler.cpp:357-417 | Built from each rank's own map and unique ids, with exact counts, the coupling lists of all ranks together have nDimensions·N entries, are exactly 0 … nDimensions·N−1 and repeat none. For an injective map, rank r's list here is the couplingVector ConstructInterfaceMap returns with the gathered counts. |
| MonolithicLayout.Offset | lifev/fsi_blocks/solver/FSIHandler.cpp:578-582 | Each block's offset, summed as at the subset call sites, leaves the block inside the monolithic vector. |
| MonolithicLayout.OffsetIsPrefixSum | lifev/fsi_blocks/solver/FSIHandler.cpp:432-439 | Each offset is the partial sum of the sizes of the blocks appended before it, and the monolithic size is the sum of all five. |
| MonolithicLayout.BlocksAdjacent | lifev/fsi_blocks/solver/FSIHandler.cpp:432-439 | Each block starts where the previous one ends. |
| MonolithicLayout.BlockOf | lifev/fsi_blocks/solver/FSIHandler.cpp:432-439 | Every position of the monolithic vector lies in exactly one block. |
| MonolithicLayout.BlocksDisjoint | lifev/fsi_blocks/solver/FSIHandler.cpp:432-439 | Two different blocks share no position. |
| MonolithicLayout.BlockMap.Append | lifev/fsi_blocks/solver/FSIHandler.cpp:435-438 | `+=` appends the other map after the current ones and grows the size by its size. |
| MonolithicLayout.BuildMonolithicMap | lifev/fsi_blocks/solver/FSIHandler.cpp:432-439 | The map consists of the velocity, pressure, displacement, multiplier and ALE maps in that order, and its size is the total. |
| MonolithicLayout.Extract | lifev/fsi_blocks/solver/FSIHandler.cpp:578-582 | The extracted block has its map's size, and entry i is the monolithic entry at offset + i. |
| MonolithicLayout.ExtractSplice | lifev/fsi_blocks/solver/FSIHandler.cpp:629-632 | Inserting a block and then extracting it returns the inserted block. |
| MonolithicLayout.ExtractSpliceOther | lifev/fsi_blocks/solver/FSIHandler.cpp:629-632 | Inserting a block leaves every other block unchanged. |
| MonolithicLayout.SpliceExtract | lifev/fsi_blocks/solver/FSIHandler.cpp:603-632 | Writing back an unchanged extracted block leaves the vector unchanged. |
| MonolithicLayout.ExtractAssemble | lifev/fsi_blocks/solver/FSIHandler.cpp:578-582 | Laying five blocks end to end and extracting any one of them gives that block back. |
| MonolithicLayout.AssembleExtract | lifev/fsi_blocks/solver/FSIHandler.cpp:578-582 | The four blocks the export takes at 578-582 (velocity, pressure, ALE displacement, structure displacement), together with the multiplier block, which the export does not take, lay out to the solution again. |
| MonolithicLayout.BlocksDetermine | lifev/fsi_blocks/solver/FSIHandler.cpp:432-439 | Two monolithic vectors with equal blocks are equal. |
| MonolithicLayout.SubsetInsert | lifev/fsi_blocks/solver/FSIHandler.cpp:629-632 | In-place insertion replaces exactly the block and keeps the rest of the vector. |
| MonolithicLayout.ApplyBlockBCs | lifev/fsi_blocks/solver/FSIHandler.cpp:599-633 | The velocity, displacement and mesh blocks become their condition applied to their old contents. The pressure and multiplier blocks stay unchanged. |
| MonolithicLayout.ApplyBCSolution | lifev/fsi_blocks/solver/FSIHandler.cpp:599-633 | The same, with scaling 1.0. |
| MonolithicLayout.ApplyBCResidual | lifev/fsi_blocks/solver/FSIHandler.cpp:636-670 | The same, with scaling 0.0. |
| MonolithicLayout.ExtractDifference | lifev/fsi_blocks/solver/FSIHandler.cpp:725 | Subtracting vectors and extracting a block commute. |
| MonolithicLayout.DifferenceZeros | lifev/fsi_blocks/solver/FSIHandler.cpp:725 | Helper step of ResidualBlocks rather than an operation of its own: subtracting the right-hand side's zero pressure and mesh blocks at 725 leaves those blocks of the product unchanged. |
| MonolithicLayout.RhsLayout | lifev/fsi_blocks/solver/FSIHandler.cpp:711-718 | Zeroing the vector and inserting the fluid, structure and coupling right-hand sides gives those blocks, with zero pressure and mesh blocks. |
| MonolithicLayout.AssembleRhs | lifev/fsi_blocks/solver/FSIHandler.cpp:711-718 | The in-place right-hand side equals that layout. |
| MonolithicLayout.ApplyMinusRhs | lifev/fsi_blocks/solver/FSIHandler.cpp:724-725 | After the operator product is written into the residual and the right-hand side is subtracted, the residual is the entrywise difference. |
| MonolithicLayout.ResidualBlocks | lifev/fsi_blocks/solver/FSIHandler.cpp:724-725 | The residual's velocity, displacement and multiplier blocks are the applied operator's blocks minus their right-hand sides. Its pressure and mesh blocks are the applied operator's own. |
| MonolithicLayout.EvalResidual | lifev/fsi_blocks/solver/FSIHandler.cpp:673-726 | The mesh displacement passed to the mesh motion is the solution's mesh block. The residual is the applied operator minus the monolithic right-hand side, its blocks as in ResidualBlocks. |
| MonolithicLayout.InitializeApplyOperator | lifev/fsi_blocks/solver/FSIHandler.cpp:812-826 | The 5 × 5 container holds the operator pattern: the ten assigned operators, and null elsewhere. |
| MonolithicLayout.PatternMatchesOperators | lifev/fsi_blocks/solver/FSIHandler.cpp:814-824 | Position (i, j) holds an operator exactly when i is the block of equations it contributes to and j the unknown it acts on. So every operator is in its place and nothing else is present. |
| MonolithicLayout.TenBlocks | lifev/fsi_blocks/solver/FSIHandler.cpp:814-824 | The non-null positions are exactly (0,0), (0,1), (0,3), (1,0), (2,2), (2,3), (3,0), (3,2), (4,2) and (4,4), which is ten. |
| MonolithicLayout.PressureRow | lifev/fsi_blocks/solver/FSIHandler.cpp:814-824 | The pressure row holds only B, at (1,0). |
| MonolithicLayout.MeshColumn | lifev/fsi_blocks/solver/FSIHandler.cpp:814-824 | The mesh-displacement column holds only the ALE matrix, at (4,4). |

## Findings

| source | as written | input that shows it | evidently intended | confidence | as-written member | corrected member |
|---|---|---|---|---|---|---|
| lifev/fsi_blocks/solver/FSIHandler.cpp:416 | The Lagrange multiplier map is built from `&couplingVector[0]` without checking that the list is non-empty. | A rank whose interface entries all have structure DOFs owned by other ranks, e.g. `locDofMap = {5 → 7}` with 7 not in the rank's unique map. couplingVector is then empty, and index 0 is out of range. | Pass a null pointer for an empty list, as `createInterfaceMaps` does for both its lists (329-333, 348-352). | medium; not executed | InterfaceNumbering.UnguardedPointer, InterfaceNumbering.NoOwnedPointsNoCoupling | InterfaceMaps.ListPointer (used by ConstructInterfaceMap and CreateInterfaceMaps) |

## Left out

- Mesh reading and partitioning, finite-element space construction, exporters and the data-file parameters: these are I/O and library construction.
- The geometric interface matching of `DOFInterface3Dto3D` is code that is not part of this model. Its `localDofMap()` is an input.
- The MPI `Broadcast` and `Barrier` are communication. Their result is the given `broadcastCounts`.
- The `MapEpetra` objects themselves are not modelled: the construction from an id list, the gid numbering produced by `+=`, and the `subMap` with its `subdomainMaxId` bound at 367. Only the id lists and the block sizes are.
- The internals of boundary conditions (`bcUpdate`, `bcManageRhs`) are foreign calls, modelled as arbitrary length-preserving functions. With this abstraction, the mesh and DOF handler of the displacement space that `applyBCresidual` passes for the fluid condition at 653 cannot be told apart from the fluid ones that `applyBCsolution` passes at 616. This looks like a copy-paste slip, but whether it matters depends on `bcManageRhs`, which is not part of this model, so it is not claimed as a finding.
- `M_applyOperator->Apply` is external (the FSI apply operator), so its product is a parameter. The same holds for the Newton driver `NonLinearRichardson`, the Krylov solve, the preconditioner set-up and `moveMesh`.
- Time advance, extrapolation, the fluid system assembly (`buildSystem`, `updateSystem`, `applyBoundaryConditions`), the structure and coupling right-hand sides and the `dt/2` loop tolerance are all floating-point library numerics. The model takes the right-hand sides as given vectors.
- InterfaceNumbering.ConstructInterfaceMap: does not model 32-bit `int` overflow of the counts, offsets or ids, because all values are non-negative and assumed to fit. C++ integer division on these non-negative values agrees with Dafny's `/`.
- InterfaceMaps.CreateInterfaceMaps: does not model 32-bit `int` overflow either. The `UInt` sums `key + dim · numTotalDof` are converted to `int` by `push_back` (326, 345), and the list sizes by `static_cast<int>` (335, 354); all are assumed to fit.
- GlobalNumbering.GapFreeMultiplierMap: the hypothesis that each rank's gathered count is nDimensions times its owned points is assumed, not derived from the unique structure interface map, because the `MapEpetra` construction is not modelled. GapFreeFromRanks states it per rank (ExactCounts) and derives the form the other lemmas use.
- MonolithicLayout.AssembleRhs: the coupling right-hand side `M_rhsCouplingVelocities` is created on the ALE map (484), while `subset` at 718 reads it at the Lagrange map's ids. The model's `rhsCoupling` is the multiplier-sized block that this read produces, not the ALE-sized vector itself.
- MonolithicLayout.ApplyMinusRhs: block vectors are exact reals, so the `double` rounding of `residual -= *rightHandSide` (725) is not modelled.
- InterfaceNumbering.CheckedId: the floating-point sum `l + offset/nDimensions + 0.2` is exact real arithmetic here, so rounding of very large ids in `double` is not modelled.
- MonolithicLayout.ApplyBlockBCs: the `bcUpdateDone()` test and the update it guards are left out. They change only the condition object, not the vector.
- The `navierStokes.hpp` example driver is a single-physics program of parsing, I/O and a floating-point time loop, outside the coupling bookkeeping.
