/** The monolithic FSI unknown: five blocks laid end to end (fluid velocity,
    fluid pressure, structure displacement, Lagrange multiplier, mesh
    displacement), the subset operations that move one block in and out of
    the monolithic vector, and the 5 x 5 block pattern of the apply operator. */
module MonolithicLayout {
  import opened SeqUtil

  datatype Block = Velocity | Pressure | StructureDisplacement | Multiplier | MeshDisplacement

  /** Position of a block in the monolithic map, as buildMonolithicMap appends them. */
  function Index(b: Block): (i: nat)
    ensures i < 5
  {
    match b
    case Velocity => 0
    case Pressure => 1
    case StructureDisplacement => 2
    case Multiplier => 3
    case MeshDisplacement => 4
  }

  function BlockAt(i: nat): (b: Block)
    requires i < 5
    ensures Index(b) == i
  {
    if i == 0 then Velocity
    else if i == 1 then Pressure
    else if i == 2 then StructureDisplacement
    else if i == 3 then Multiplier
    else MeshDisplacement
  }

  /** mapSize() of the five spaces: uFESpace, pFESpace, the displacement
      space, the Lagrange map and the ALE space. */
  datatype BlockSizes = BlockSizes(velocity: nat, pressure: nat, structure: nat, multiplier: nat, mesh: nat)

  function Size(sz: BlockSizes, b: Block): nat
  {
    match b
    case Velocity => sz.velocity
    case Pressure => sz.pressure
    case StructureDisplacement => sz.structure
    case Multiplier => sz.multiplier
    case MeshDisplacement => sz.mesh
  }

  /** The block sizes in map order. */
  function Sizes(sz: BlockSizes): (r: seq<int>)
    ensures |r| == 5
    ensures forall i :: 0 <= i < 5 ==> r[i] == Size(sz, BlockAt(i))
  {
    [sz.velocity, sz.pressure, sz.structure, sz.multiplier, sz.mesh]
  }

  function Total(sz: BlockSizes): nat
  {
    sz.velocity + sz.pressure + sz.structure + sz.multiplier + sz.mesh
  }

  /** The offset of a block, written out as each call site of subset sums
      the mapSize() of the blocks before it. The block ends inside the
      monolithic vector. */
  function Offset(sz: BlockSizes, b: Block): (o: nat)
    ensures o + Size(sz, b) <= Total(sz)
  {
    match b
    case Velocity => 0
    case Pressure => sz.velocity
    case StructureDisplacement => sz.velocity + sz.pressure
    case Multiplier => sz.velocity + sz.pressure + sz.structure
    case MeshDisplacement => sz.velocity + sz.pressure + sz.structure + sz.multiplier
  }

  /** Each offset is the partial sum of the sizes of the blocks before it,
      and the total is the sum of all five. */
  lemma OffsetIsPrefixSum(sz: BlockSizes, b: Block)
    ensures Offset(sz, b) == Sum(Sizes(sz)[..Index(b)])
    ensures Total(sz) == Sum(Sizes(sz))
  {
    var s := Sizes(sz);
    assert s[..0] == [];
    SumPrefixStep(s, 0);
    SumPrefixStep(s, 1);
    SumPrefixStep(s, 2);
    SumPrefixStep(s, 3);
    SumPrefixStep(s, 4);
    assert s[..5] == s;
  }

  /** Consecutive blocks are adjacent: each starts where the previous ends. */
  lemma BlocksAdjacent(sz: BlockSizes, i: nat)
    requires i < 4
    ensures Offset(sz, BlockAt(i + 1)) == Offset(sz, BlockAt(i)) + Size(sz, BlockAt(i))
  {
  }

  /** Every position of the monolithic vector lies in exactly one block. */
  lemma BlockOf(sz: BlockSizes, p: int) returns (b: Block)
    requires 0 <= p < Total(sz)
    ensures Offset(sz, b) <= p < Offset(sz, b) + Size(sz, b)
    ensures forall c :: Offset(sz, c) <= p < Offset(sz, c) + Size(sz, c) ==> c == b
  {
    if p < Offset(sz, Pressure) {
      b := Velocity;
    } else if p < Offset(sz, StructureDisplacement) {
      b := Pressure;
    } else if p < Offset(sz, Multiplier) {
      b := StructureDisplacement;
    } else if p < Offset(sz, MeshDisplacement) {
      b := Multiplier;
    } else {
      b := MeshDisplacement;
    }
  }

  /** Two different blocks never share a position. */
  lemma BlocksDisjoint(sz: BlockSizes, b: Block, c: Block, i: nat, j: nat)
    requires b != c && i < Size(sz, b) && j < Size(sz, c)
    ensures Offset(sz, b) + i != Offset(sz, c) + j
  {
    var p := Offset(sz, b) + i;
    var owner := BlockOf(sz, p);
  }

  /** The monolithic map M_monolithicMap, grown block by block with +=;
      it is kept as the sizes of the maps appended so far. */
  class BlockMap {
    var blocks: seq<nat>

    function MapSize(): int
      reads this
    {
      Sum(blocks)
    }

    constructor (first: nat)
      ensures blocks == [first]
    {
      blocks := [first];
    }

    /** map += other: the other map's entries follow the current ones. */
    method Append(other: nat)
      modifies this
      ensures blocks == old(blocks) + [other]
      ensures MapSize() == old(MapSize()) + other
    {
      blocks := blocks + [other];
      assert blocks[..|blocks| - 1] == old(blocks);
    }
  }

  /** FSIHandler::buildMonolithicMap: velocity, pressure, displacement,
      Lagrange multiplier and ALE maps, in that order. */
  method BuildMonolithicMap(sz: BlockSizes) returns (m: BlockMap)
    ensures fresh(m)
    ensures m.blocks == Sizes(sz)
    ensures m.MapSize() == Total(sz)
  {
    m := new BlockMap(sz.velocity);
    assert m.blocks[..0] == [];
    m.Append(sz.pressure);
    m.Append(sz.structure);
    m.Append(sz.multiplier);
    m.Append(sz.mesh);
    OffsetIsPrefixSum(sz, Velocity);
  }

  /** target.subset(v, map, offset, 0): the block of v that starts at the
      block's offset, copied into a vector of the block's own map. */
  function Extract(v: seq<real>, sz: BlockSizes, b: Block): (r: seq<real>)
    requires |v| == Total(sz)
    ensures |r| == Size(sz, b)
    ensures forall i :: 0 <= i < |r| ==> r[i] == v[Offset(sz, b) + i]
  {
    v[Offset(sz, b)..Offset(sz, b) + Size(sz, b)]
  }

  /** The monolithic vector after v.subset(part, map, 0, offset): the block
      replaced, everything else as before. */
  function Splice(v: seq<real>, sz: BlockSizes, b: Block, part: seq<real>): (r: seq<real>)
    requires |v| == Total(sz) && |part| == Size(sz, b)
    ensures |r| == |v|
  {
    v[..Offset(sz, b)] + part + v[Offset(sz, b) + Size(sz, b)..]
  }

  /** The five blocks laid end to end. */
  function Assemble(velocity: seq<real>, pressure: seq<real>, structure: seq<real>,
                    multiplier: seq<real>, mesh: seq<real>): seq<real>
  {
    velocity + pressure + structure + multiplier + mesh
  }

  function SizesOf(velocity: seq<real>, pressure: seq<real>, structure: seq<real>,
                   multiplier: seq<real>, mesh: seq<real>): BlockSizes
  {
    BlockSizes(|velocity|, |pressure|, |structure|, |multiplier|, |mesh|)
  }

  /** Inserting a block and extracting it again gives the inserted block. */
  lemma ExtractSplice(v: seq<real>, sz: BlockSizes, b: Block, part: seq<real>)
    requires |v| == Total(sz) && |part| == Size(sz, b)
    ensures Extract(Splice(v, sz, b, part), sz, b) == part
  {
    var w := Splice(v, sz, b, part);
    assert forall i :: 0 <= i < |part| ==> w[Offset(sz, b) + i] == part[i];
  }

  /** Inserting a block leaves every other block untouched. */
  lemma ExtractSpliceOther(v: seq<real>, sz: BlockSizes, b: Block, c: Block, part: seq<real>)
    requires |v| == Total(sz) && |part| == Size(sz, b) && b != c
    ensures Extract(Splice(v, sz, b, part), sz, c) == Extract(v, sz, c)
  {
    var w := Splice(v, sz, b, part);
    forall j | 0 <= j < Size(sz, c) ensures Extract(w, sz, c)[j] == Extract(v, sz, c)[j] {
      var p := Offset(sz, c) + j;
      if p < Offset(sz, b) || Offset(sz, b) + Size(sz, b) <= p {
        assert w[p] == v[p];
      } else {
        assert false;
      }
    }
  }

  /** Writing back the block just extracted changes nothing. */
  lemma SpliceExtract(v: seq<real>, sz: BlockSizes, b: Block)
    requires |v| == Total(sz)
    ensures Splice(v, sz, b, Extract(v, sz, b)) == v
  {
    assert v[..Offset(sz, b)] + v[Offset(sz, b)..Offset(sz, b) + Size(sz, b)] + v[Offset(sz, b) + Size(sz, b)..] == v;
  }

  /** Laying out five blocks and extracting one gives that block back. */
  lemma ExtractAssemble(velocity: seq<real>, pressure: seq<real>, structure: seq<real>,
                        multiplier: seq<real>, mesh: seq<real>)
    ensures var v := Assemble(velocity, pressure, structure, multiplier, mesh);
            var sz := SizesOf(velocity, pressure, structure, multiplier, mesh);
            |v| == Total(sz) &&
            Extract(v, sz, Velocity) == velocity && Extract(v, sz, Pressure) == pressure &&
            Extract(v, sz, StructureDisplacement) == structure && Extract(v, sz, Multiplier) == multiplier &&
            Extract(v, sz, MeshDisplacement) == mesh
  {
  }

  lemma SliceConcat(v: seq<real>, i: nat, j: nat, k: nat)
    requires i <= j <= k <= |v|
    ensures v[i..j] + v[j..k] == v[i..k]
  {
  }

  /** The four blocks the export after each time step takes out of the
      solution, together with the multiplier block, which the export does not
      take, lay out to the solution again. */
  lemma AssembleExtract(v: seq<real>, sz: BlockSizes)
    requires |v| == Total(sz)
    ensures Assemble(Extract(v, sz, Velocity), Extract(v, sz, Pressure), Extract(v, sz, StructureDisplacement),
                     Extract(v, sz, Multiplier), Extract(v, sz, MeshDisplacement)) == v
  {
    var o1 := Offset(sz, Pressure);
    var o2 := Offset(sz, StructureDisplacement);
    var o3 := Offset(sz, Multiplier);
    var o4 := Offset(sz, MeshDisplacement);
    assert Extract(v, sz, Velocity) == v[0..o1];
    assert Extract(v, sz, Pressure) == v[o1..o2];
    assert Extract(v, sz, StructureDisplacement) == v[o2..o3];
    assert Extract(v, sz, Multiplier) == v[o3..o4];
    assert Extract(v, sz, MeshDisplacement) == v[o4..|v|];
    SliceConcat(v, 0, o1, o2);
    SliceConcat(v, 0, o2, o3);
    SliceConcat(v, 0, o3, o4);
    SliceConcat(v, 0, o4, |v|);
    assert v[0..o1] == v[..o1] && v[0..|v|] == v;
  }

  /** v.subset(part, map, 0, offset) on the monolithic vector, in place. */
  method SubsetInsert(v: array<real>, sz: BlockSizes, b: Block, part: seq<real>)
    requires v.Length == Total(sz) && |part| == Size(sz, b)
    modifies v
    ensures v[..] == Splice(old(v[..]), sz, b, part)
  {
    var offset := Offset(sz, b);
    forall i | 0 <= i < |part| {
      v[offset + i] := part[i];
    }
    assert v[..] == Splice(old(v[..]), sz, b, part) by {
      var w := Splice(old(v[..]), sz, b, part);
      forall p | 0 <= p < v.Length ensures v[p] == w[p] {
        if p < offset {
        } else if p < offset + |part| {
          assert w[p] == part[p - offset];
        } else {
          assert w[p] == old(v[..])[p];
        }
      }
    }
  }

  /** A boundary-condition manager applied to one block
      (bcManageRhs(vector, mesh, dof, bc, feBd, scale, time)); it is a
      function of the block and the scaling, and keeps the block's length. */
  type BoundaryCondition = (seq<real>, real) -> seq<real>

  ghost predicate KeepsLength(bc: BoundaryCondition)
  {
    forall u: seq<real>, scale: real :: |bc(u, scale)| == |u|
  }

  /** The common body of applyBCsolution and applyBCresidual: extract the
      velocity, displacement and mesh blocks, apply each block's condition
      with the given scaling, and insert the three blocks again. */
  method ApplyBlockBCs(v: array<real>, sz: BlockSizes, fluidBC: BoundaryCondition,
                       structureBC: BoundaryCondition, aleBC: BoundaryCondition, scale: real)
    requires v.Length == Total(sz)
    requires KeepsLength(fluidBC) && KeepsLength(structureBC) && KeepsLength(aleBC)
    modifies v
    ensures Extract(v[..], sz, Velocity) == fluidBC(Extract(old(v[..]), sz, Velocity), scale)
    ensures Extract(v[..], sz, StructureDisplacement) == structureBC(Extract(old(v[..]), sz, StructureDisplacement), scale)
    ensures Extract(v[..], sz, MeshDisplacement) == aleBC(Extract(old(v[..]), sz, MeshDisplacement), scale)
    ensures Extract(v[..], sz, Pressure) == Extract(old(v[..]), sz, Pressure)
    ensures Extract(v[..], sz, Multiplier) == Extract(old(v[..]), sz, Multiplier)
  {
    ghost var v0 := v[..];
    var velocity := Extract(v[..], sz, Velocity);
    var displacement := Extract(v[..], sz, StructureDisplacement);
    var geometry := Extract(v[..], sz, MeshDisplacement);

    velocity := fluidBC(velocity, scale);
    displacement := structureBC(displacement, scale);
    geometry := aleBC(geometry, scale);

    SubsetInsert(v, sz, Velocity, velocity);
    ghost var v1 := v[..];
    SubsetInsert(v, sz, StructureDisplacement, displacement);
    ghost var v2 := v[..];
    SubsetInsert(v, sz, MeshDisplacement, geometry);

    ExtractSplice(v0, sz, Velocity, velocity);
    ExtractSpliceOther(v1, sz, StructureDisplacement, Velocity, displacement);
    ExtractSpliceOther(v2, sz, MeshDisplacement, Velocity, geometry);

    ExtractSplice(v1, sz, StructureDisplacement, displacement);
    ExtractSpliceOther(v0, sz, Velocity, StructureDisplacement, velocity);
    ExtractSpliceOther(v2, sz, MeshDisplacement, StructureDisplacement, geometry);

    ExtractSplice(v2, sz, MeshDisplacement, geometry);
    ExtractSpliceOther(v0, sz, Velocity, MeshDisplacement, velocity);
    ExtractSpliceOther(v1, sz, StructureDisplacement, MeshDisplacement, displacement);

    ExtractSpliceOther(v0, sz, Velocity, Pressure, velocity);
    ExtractSpliceOther(v1, sz, StructureDisplacement, Pressure, displacement);
    ExtractSpliceOther(v2, sz, MeshDisplacement, Pressure, geometry);

    ExtractSpliceOther(v0, sz, Velocity, Multiplier, velocity);
    ExtractSpliceOther(v1, sz, StructureDisplacement, Multiplier, displacement);
    ExtractSpliceOther(v2, sz, MeshDisplacement, Multiplier, geometry);
  }

  /** FSIHandler::applyBCsolution: the conditions with scaling 1.0. */
  method ApplyBCSolution(solution: array<real>, sz: BlockSizes, fluidBC: BoundaryCondition,
                         structureBC: BoundaryCondition, aleBC: BoundaryCondition)
    requires solution.Length == Total(sz)
    requires KeepsLength(fluidBC) && KeepsLength(structureBC) && KeepsLength(aleBC)
    modifies solution
    ensures Extract(solution[..], sz, Velocity) == fluidBC(Extract(old(solution[..]), sz, Velocity), 1.0)
    ensures Extract(solution[..], sz, StructureDisplacement) ==
            structureBC(Extract(old(solution[..]), sz, StructureDisplacement), 1.0)
    ensures Extract(solution[..], sz, MeshDisplacement) == aleBC(Extract(old(solution[..]), sz, MeshDisplacement), 1.0)
    ensures Extract(solution[..], sz, Pressure) == Extract(old(solution[..]), sz, Pressure)
    ensures Extract(solution[..], sz, Multiplier) == Extract(old(solution[..]), sz, Multiplier)
  {
    ApplyBlockBCs(solution, sz, fluidBC, structureBC, aleBC, 1.0);
  }

  /** FSIHandler::applyBCresidual: the conditions with scaling 0.0. */
  method ApplyBCResidual(residual: array<real>, sz: BlockSizes, fluidBC: BoundaryCondition,
                         structureBC: BoundaryCondition, aleBC: BoundaryCondition)
    requires residual.Length == Total(sz)
    requires KeepsLength(fluidBC) && KeepsLength(structureBC) && KeepsLength(aleBC)
    modifies residual
    ensures Extract(residual[..], sz, Velocity) == fluidBC(Extract(old(residual[..]), sz, Velocity), 0.0)
    ensures Extract(residual[..], sz, StructureDisplacement) ==
            structureBC(Extract(old(residual[..]), sz, StructureDisplacement), 0.0)
    ensures Extract(residual[..], sz, MeshDisplacement) == aleBC(Extract(old(residual[..]), sz, MeshDisplacement), 0.0)
    ensures Extract(residual[..], sz, Pressure) == Extract(old(residual[..]), sz, Pressure)
    ensures Extract(residual[..], sz, Multiplier) == Extract(old(residual[..]), sz, Multiplier)
  {
    ApplyBlockBCs(residual, sz, fluidBC, structureBC, aleBC, 0.0);
  }

  function Zeros(n: nat): (r: seq<real>)
    ensures |r| == n && forall i :: 0 <= i < n ==> r[i] == 0.0
  {
    seq(n, i => 0.0)
  }

  /** Entrywise difference a - b. */
  function Difference(a: seq<real>, b: seq<real>): (r: seq<real>)
    requires |a| == |b|
    ensures |r| == |a|
  {
    seq(|a|, i requires 0 <= i < |a| => a[i] - b[i])
  }

  lemma ExtractDifference(a: seq<real>, b: seq<real>, sz: BlockSizes, blk: Block)
    requires |a| == Total(sz) && |b| == Total(sz)
    ensures Extract(Difference(a, b), sz, blk) == Difference(Extract(a, sz, blk), Extract(b, sz, blk))
  {
  }

  lemma DifferenceZeros(a: seq<real>)
    ensures Difference(a, Zeros(|a|)) == a
  {
  }

  /** A monolithic vector is determined by its five blocks. */
  lemma BlocksDetermine(v: seq<real>, w: seq<real>, sz: BlockSizes)
    requires |v| == Total(sz) && |w| == Total(sz)
    requires Extract(v, sz, Velocity) == Extract(w, sz, Velocity)
    requires Extract(v, sz, Pressure) == Extract(w, sz, Pressure)
    requires Extract(v, sz, StructureDisplacement) == Extract(w, sz, StructureDisplacement)
    requires Extract(v, sz, Multiplier) == Extract(w, sz, Multiplier)
    requires Extract(v, sz, MeshDisplacement) == Extract(w, sz, MeshDisplacement)
    ensures v == w
  {
    AssembleExtract(v, sz);
    AssembleExtract(w, sz);
  }

  /** The right-hand side of evalResidual: a zero vector of the monolithic
      map, then the fluid, structure and velocity-coupling right-hand sides
      inserted into their blocks, leaves the pressure and mesh blocks zero. */
  lemma RhsLayout(sz: BlockSizes, rhsFluid: seq<real>, rhsStructure: seq<real>, rhsCoupling: seq<real>)
    requires |rhsFluid| == sz.velocity && |rhsStructure| == sz.structure && |rhsCoupling| == sz.multiplier
    ensures Splice(Splice(Splice(Zeros(Total(sz)), sz, Velocity, rhsFluid), sz, StructureDisplacement, rhsStructure),
                   sz, Multiplier, rhsCoupling) ==
            Assemble(rhsFluid, Zeros(sz.pressure), rhsStructure, rhsCoupling, Zeros(sz.mesh))
  {
    var v0 := Zeros(Total(sz));
    var v1 := Splice(v0, sz, Velocity, rhsFluid);
    var v2 := Splice(v1, sz, StructureDisplacement, rhsStructure);
    var v3 := Splice(v2, sz, Multiplier, rhsCoupling);
    var target := Assemble(rhsFluid, Zeros(sz.pressure), rhsStructure, rhsCoupling, Zeros(sz.mesh));
    assert SizesOf(rhsFluid, Zeros(sz.pressure), rhsStructure, rhsCoupling, Zeros(sz.mesh)) == sz;
    ExtractAssemble(rhsFluid, Zeros(sz.pressure), rhsStructure, rhsCoupling, Zeros(sz.mesh));

    ExtractSplice(v0, sz, Velocity, rhsFluid);
    ExtractSpliceOther(v1, sz, StructureDisplacement, Velocity, rhsStructure);
    ExtractSpliceOther(v2, sz, Multiplier, Velocity, rhsCoupling);
    ExtractSplice(v1, sz, StructureDisplacement, rhsStructure);
    ExtractSpliceOther(v2, sz, Multiplier, StructureDisplacement, rhsCoupling);
    ExtractSplice(v2, sz, Multiplier, rhsCoupling);
    ExtractSpliceOther(v0, sz, Velocity, Pressure, rhsFluid);
    ExtractSpliceOther(v1, sz, StructureDisplacement, Pressure, rhsStructure);
    ExtractSpliceOther(v2, sz, Multiplier, Pressure, rhsCoupling);
    ExtractSpliceOther(v0, sz, Velocity, MeshDisplacement, rhsFluid);
    ExtractSpliceOther(v1, sz, StructureDisplacement, MeshDisplacement, rhsStructure);
    ExtractSpliceOther(v2, sz, Multiplier, MeshDisplacement, rhsCoupling);
    assert Extract(v0, sz, Pressure) == Zeros(sz.pressure);
    assert Extract(v0, sz, MeshDisplacement) == Zeros(sz.mesh);
    BlocksDetermine(v3, target, sz);
  }

  /** The monolithic right-hand side of evalResidual, built in place. */
  method AssembleRhs(sz: BlockSizes, rhsFluid: seq<real>, rhsStructure: seq<real>, rhsCoupling: seq<real>)
    returns (rhs: array<real>)
    requires |rhsFluid| == sz.velocity && |rhsStructure| == sz.structure && |rhsCoupling| == sz.multiplier
    ensures fresh(rhs)
    ensures rhs[..] == Assemble(rhsFluid, Zeros(sz.pressure), rhsStructure, rhsCoupling, Zeros(sz.mesh))
  {
    rhs := new real[Total(sz)](i => 0.0);
    assert rhs[..] == Zeros(Total(sz));
    SubsetInsert(rhs, sz, Velocity, rhsFluid);
    SubsetInsert(rhs, sz, StructureDisplacement, rhsStructure);
    SubsetInsert(rhs, sz, Multiplier, rhsCoupling);
    RhsLayout(sz, rhsFluid, rhsStructure, rhsCoupling);
  }

  /** Block by block, the residual is the applied operator minus the
      right-hand side: the pressure and mesh blocks are the applied
      operator's own. */
  lemma ResidualBlocks(applied: seq<real>, sz: BlockSizes,
                       rhsFluid: seq<real>, rhsStructure: seq<real>, rhsCoupling: seq<real>)
    requires |applied| == Total(sz)
    requires |rhsFluid| == sz.velocity && |rhsStructure| == sz.structure && |rhsCoupling| == sz.multiplier
    ensures var r := Difference(applied, Assemble(rhsFluid, Zeros(sz.pressure), rhsStructure, rhsCoupling, Zeros(sz.mesh)));
            |r| == Total(sz) &&
            Extract(r, sz, Velocity) == Difference(Extract(applied, sz, Velocity), rhsFluid) &&
            Extract(r, sz, Pressure) == Extract(applied, sz, Pressure) &&
            Extract(r, sz, StructureDisplacement) == Difference(Extract(applied, sz, StructureDisplacement), rhsStructure) &&
            Extract(r, sz, Multiplier) == Difference(Extract(applied, sz, Multiplier), rhsCoupling) &&
            Extract(r, sz, MeshDisplacement) == Extract(applied, sz, MeshDisplacement)
  {
    var rhs := Assemble(rhsFluid, Zeros(sz.pressure), rhsStructure, rhsCoupling, Zeros(sz.mesh));
    assert SizesOf(rhsFluid, Zeros(sz.pressure), rhsStructure, rhsCoupling, Zeros(sz.mesh)) == sz;
    ExtractAssemble(rhsFluid, Zeros(sz.pressure), rhsStructure, rhsCoupling, Zeros(sz.mesh));
    ExtractDifference(applied, rhs, sz, Velocity);
    ExtractDifference(applied, rhs, sz, Pressure);
    ExtractDifference(applied, rhs, sz, StructureDisplacement);
    ExtractDifference(applied, rhs, sz, Multiplier);
    ExtractDifference(applied, rhs, sz, MeshDisplacement);
    DifferenceZeros(Extract(applied, sz, Pressure));
    DifferenceZeros(Extract(applied, sz, MeshDisplacement));
  }

  /** Apply(solution, residual) followed by residual -= rightHandSide, with
      the operator's product given as `applied`. */
  method ApplyMinusRhs(residual: array<real>, applied: seq<real>, rightHandSide: array<real>)
    requires residual.Length == |applied| == rightHandSide.Length && residual != rightHandSide
    modifies residual
    ensures residual[..] == Difference(applied, rightHandSide[..])
  {
    forall i | 0 <= i < residual.Length {
      residual[i] := applied[i];
    }
    forall i | 0 <= i < residual.Length {
      residual[i] := residual[i] - rightHandSide[i];
    }
    assert residual[..] == Difference(applied, rightHandSide[..]);
  }

  /** The residual computation of FSIHandler::evalResidual. The mesh
      displacement block handed to the mesh motion is returned; the fluid
      right-hand side re-assembled on the moved mesh and the apply operator
      are parameters. The residual is the applied operator minus the
      monolithic right-hand side, so its pressure and mesh blocks are those
      of the applied operator. */
  method EvalResidual(residual: array<real>, solution: seq<real>, sz: BlockSizes,
                      rhsFluid: seq<real>, rhsStructure: seq<real>, rhsCoupling: seq<real>,
                      apply: seq<real> -> seq<real>)
    returns (meshDisplacement: seq<real>)
    requires residual.Length == Total(sz) && |solution| == Total(sz)
    requires |rhsFluid| == sz.velocity && |rhsStructure| == sz.structure && |rhsCoupling| == sz.multiplier
    requires |apply(solution)| == |solution|
    modifies residual
    ensures meshDisplacement == Extract(solution, sz, MeshDisplacement)
    ensures residual[..] == Difference(apply(solution),
                                       Assemble(rhsFluid, Zeros(sz.pressure), rhsStructure, rhsCoupling, Zeros(sz.mesh)))
    ensures Extract(residual[..], sz, Velocity) == Difference(Extract(apply(solution), sz, Velocity), rhsFluid)
    ensures Extract(residual[..], sz, Pressure) == Extract(apply(solution), sz, Pressure)
    ensures Extract(residual[..], sz, StructureDisplacement) ==
            Difference(Extract(apply(solution), sz, StructureDisplacement), rhsStructure)
    ensures Extract(residual[..], sz, Multiplier) == Difference(Extract(apply(solution), sz, Multiplier), rhsCoupling)
    ensures Extract(residual[..], sz, MeshDisplacement) == Extract(apply(solution), sz, MeshDisplacement)
  {
    forall i | 0 <= i < residual.Length {
      residual[i] := 0.0;
    }

    var offset := sz.velocity + sz.pressure + sz.structure + sz.multiplier;
    meshDisplacement := solution[offset..offset + sz.mesh];

    var rightHandSide := AssembleRhs(sz, rhsFluid, rhsStructure, rhsCoupling);

    var applied := apply(solution);
    ApplyMinusRhs(residual, applied, rightHandSide);
    ResidualBlocks(applied, sz, rhsFluid, rhsStructure, rhsCoupling);
  }

  /** The operators handed to the FSI apply operator. */
  datatype Operator =
    | F                                        // fluid momentum
    | Btranspose                               // pressure gradient
    | LambdaToFluidMomentum
    | B                                        // velocity divergence
    | StructureMatrix
    | LambdaToStructureMomentum
    | FluidVelocityToLambda
    | StructureDisplacementToLambda
    | StructureDisplacementToFluidDisplacement
    | AleMatrix

  /** The unknown block an operator acts on. */
  function Unknown(op: Operator): Block
  {
    match op
    case F => Velocity
    case Btranspose => Pressure
    case LambdaToFluidMomentum => Multiplier
    case B => Velocity
    case StructureMatrix => StructureDisplacement
    case LambdaToStructureMomentum => Multiplier
    case FluidVelocityToLambda => Velocity
    case StructureDisplacementToLambda => StructureDisplacement
    case StructureDisplacementToFluidDisplacement => StructureDisplacement
    case AleMatrix => MeshDisplacement
  }

  /** The block of equations an operator contributes to. */
  function Equation(op: Operator): Block
  {
    match op
    case F => Velocity
    case Btranspose => Velocity
    case LambdaToFluidMomentum => Velocity
    case B => Pressure
    case StructureMatrix => StructureDisplacement
    case LambdaToStructureMomentum => StructureDisplacement
    case FluidVelocityToLambda => Multiplier
    case StructureDisplacementToLambda => Multiplier
    case StructureDisplacementToFluidDisplacement => MeshDisplacement
    case AleMatrix => MeshDisplacement
  }

  /** operData(i, j) after initializeApplyOperator: null except at the ten
      positions it assigns. */
  function Pattern(i: nat, j: nat): Option<Operator>
    requires i < 5 && j < 5
  {
    if i == 0 && j == 0 then Some(F)
    else if i == 0 && j == 1 then Some(Btranspose)
    else if i == 0 && j == 3 then Some(LambdaToFluidMomentum)
    else if i == 1 && j == 0 then Some(B)
    else if i == 2 && j == 2 then Some(StructureMatrix)
    else if i == 2 && j == 3 then Some(LambdaToStructureMomentum)
    else if i == 3 && j == 0 then Some(FluidVelocityToLambda)
    else if i == 3 && j == 2 then Some(StructureDisplacementToLambda)
    else if i == 4 && j == 2 then Some(StructureDisplacementToFluidDisplacement)
    else if i == 4 && j == 4 then Some(AleMatrix)
    else None
  }

  /** FSIHandler::initializeApplyOperator: a 5 x 5 container of operators,
      filled at ten positions. */
  method InitializeApplyOperator() returns (operData: array2<Option<Operator>>)
    ensures fresh(operData)
    ensures operData.Length0 == 5 && operData.Length1 == 5
    ensures forall i, j :: 0 <= i < 5 && 0 <= j < 5 ==> operData[i, j] == Pattern(i, j)
  {
    operData := new Option<Operator>[5, 5]((i, j) => None);
    operData[0, 0] := Some(F);
    operData[0, 1] := Some(Btranspose);
    operData[0, 3] := Some(LambdaToFluidMomentum);
    operData[1, 0] := Some(B);
    operData[2, 2] := Some(StructureMatrix);
    operData[2, 3] := Some(LambdaToStructureMomentum);
    operData[3, 0] := Some(FluidVelocityToLambda);
    operData[3, 2] := Some(StructureDisplacementToLambda);
    operData[4, 2] := Some(StructureDisplacementToFluidDisplacement);
    operData[4, 4] := Some(AleMatrix);
  }

  /** Every operator sits in the row of the equations it contributes to and
      the column of the unknown it acts on, and every operator is placed:
      the pattern is exactly the ten operators, one per position. */
  lemma PatternMatchesOperators(i: nat, j: nat, op: Operator)
    requires i < 5 && j < 5
    ensures Pattern(i, j) == Some(op) <==> (i == Index(Equation(op)) && j == Index(Unknown(op)))
  {
  }

  /** The non-null positions of the pattern. */
  function Occupied(): (r: set<(nat, nat)>)
    ensures forall i: nat, j: nat :: (i, j) in r <==> i < 5 && j < 5 && Pattern(i, j).Some?
  {
    set i: nat, j: nat | i < 5 && j < 5 && Pattern(i, j).Some? :: (i, j)
  }

  /** Exactly ten blocks are non-null. */
  lemma TenBlocks()
    ensures Occupied() == {(0, 0), (0, 1), (0, 3), (1, 0), (2, 2), (2, 3), (3, 0), (3, 2), (4, 2), (4, 4)}
    ensures |Occupied()| == 10
  {
    assert Occupied() == {(0, 0), (0, 1), (0, 3), (1, 0), (2, 2), (2, 3), (3, 0), (3, 2), (4, 2), (4, 4)};
  }

  /** The pressure row holds only the divergence B, at (1, 0): the pressure
      equations have no pressure-pressure block. */
  lemma PressureRow(j: nat)
    requires j < 5
    ensures Pattern(1, j).Some? <==> j == 0
    ensures Pattern(1, 0) == Some(B)
  {
  }

  /** The mesh displacement is read only by the ALE operator itself. */
  lemma MeshColumn(i: nat)
    requires i < 5
    ensures Pattern(i, 4).Some? <==> i == 4
    ensures Pattern(4, 4) == Some(AleMatrix)
  {
  }
}
