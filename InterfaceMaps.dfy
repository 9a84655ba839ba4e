/** The fluid-side and structure-side interface DOF lists built by
    FSIHandler::createInterfaceMaps from the rank-local interface map. */
module InterfaceMaps {
  import opened SeqUtil

  /** One entry of the rank-local interface map: a fluid velocity DOF and the
      structure displacement DOF matched to it (both scalar, first component). */
  datatype DofPair = DofPair(fluid: nat, structure: nat)

  /** The interface map `std::map<ID, ID>` as the entries its iterator visits,
      in traversal order. */
  type LocalDofMap = seq<DofPair>

  /** What a `std::map` guarantees of its traversal: strictly ascending keys. */
  predicate KeysAscending(m: LocalDofMap)
  {
    forall i, j :: 0 <= i < j < |m| ==> m[i].fluid < m[j].fluid
  }

  /** No structure DOF is matched to two fluid DOFs. */
  predicate Injective(m: LocalDofMap)
  {
    forall i, j :: 0 <= i < j < |m| ==> m[i].structure != m[j].structure
  }

  function FluidIds(m: LocalDofMap): (r: seq<int>)
    ensures |r| == |m|
  {
    seq(|m|, k requires 0 <= k < |m| => m[k].fluid)
  }

  function StructureIds(m: LocalDofMap): (r: seq<int>)
    ensures |r| == |m|
  {
    seq(|m|, k requires 0 <= k < |m| => m[k].structure)
  }

  function Shifted(ids: seq<int>, c: int): (r: seq<int>)
    ensures |r| == |ids|
  {
    seq(|ids|, k requires 0 <= k < |ids| => ids[k] + c)
  }

  lemma ShiftedStep(ids: seq<int>, c: int, i: nat)
    requires i < |ids|
    ensures Shifted(ids[..i + 1], c) == Shifted(ids[..i], c) + [ids[i] + c]
  {
  }

  /** Position of dimension `d`'s copy of entry `k` in a list of `n` entries
      replicated per dimension. */
  function Slot(nDim: nat, n: nat, d: nat, k: nat): (p: nat)
    requires d < nDim && k < n
    ensures p < nDim * n
  {
    MulStep(d, n, k, nDim);
    d * n + k
  }

  /** The id that copy `d` of entry `k` carries. */
  function Entry(ids: seq<int>, stride: int, d: nat, k: nat): int
    requires k < |ids|
  {
    ids[k] + d * stride
  }

  /** The list for a vector field: one copy of `ids` per space dimension,
      copy `dim` shifted by `dim * stride`, copies in dimension order. */
  function Replicated(ids: seq<int>, nDim: nat, stride: int): seq<int>
  {
    if nDim == 0 then [] else Replicated(ids, nDim - 1, stride) + Shifted(ids, (nDim - 1) * stride)
  }

  lemma {:induction false} ReplicatedLength(ids: seq<int>, nDim: nat, stride: int)
    ensures |Replicated(ids, nDim, stride)| == nDim * |ids|
  {
    if nDim > 0 {
      ReplicatedLength(ids, nDim - 1, stride);
    }
  }

  lemma MulStep(d: nat, n: nat, k: nat, nDim: nat)
    requires d < nDim && k < n
    ensures d * n + k < nDim * n
  {
    assert d * n + n == (d + 1) * n;
    assert (d + 1) * n <= nDim * n;
  }

  /** Entry `dim * |ids| + k` of the replicated list is `ids[k] + dim * stride`. */
  lemma {:induction false} ReplicatedAt(ids: seq<int>, nDim: nat, stride: int, d: nat, k: nat)
    requires d < nDim && k < |ids|
    ensures |Replicated(ids, nDim, stride)| == nDim * |ids|
    ensures Replicated(ids, nDim, stride)[Slot(nDim, |ids|, d, k)] == Entry(ids, stride, d, k)
  {
    ReplicatedLength(ids, nDim, stride);
    ReplicatedLength(ids, nDim - 1, stride);
    if d < nDim - 1 {
      ReplicatedAt(ids, nDim - 1, stride, d, k);
      assert Slot(nDim, |ids|, d, k) == Slot(nDim - 1, |ids|, d, k);
    }
  }

  /** Every entry of the replicated list comes from some dimension and some id. */
  lemma {:induction false} ReplicatedMember(ids: seq<int>, nDim: nat, stride: int, v: int)
    ensures v in Replicated(ids, nDim, stride) <==>
            exists d: nat, k: nat :: d < nDim && k < |ids| && v == Entry(ids, stride, d, k)
  {
    if nDim > 0 {
      ReplicatedMember(ids, nDim - 1, stride, v);
      var last := Shifted(ids, (nDim - 1) * stride);
      if v in last {
        var k :| 0 <= k < |ids| && last[k] == v;
        assert v == Entry(ids, stride, nDim - 1, k);
      }
      if exists d: nat, k: nat :: d < nDim && k < |ids| && v == Entry(ids, stride, d, k) {
        var d: nat, k: nat :| d < nDim && k < |ids| && v == Entry(ids, stride, d, k);
        if d == nDim - 1 {
          assert last[k] == v;
        }
      }
    }
  }

  lemma {:induction false} ReplicatedBounds(ids: seq<int>, nDim: nat, stride: nat)
    requires forall k :: 0 <= k < |ids| ==> 0 <= ids[k] < stride
    ensures forall v :: v in Replicated(ids, nDim, stride) ==> 0 <= v < nDim * stride
  {
    if nDim > 0 {
      ReplicatedBounds(ids, nDim - 1, stride);
      assert (nDim - 1) * stride + stride == nDim * stride;
    }
  }

  /** The per-dimension stride keeps the dimension copies apart: when the ids
      are distinct and below the stride, the replicated list is distinct. */
  lemma {:induction false} ReplicatedDistinct(ids: seq<int>, nDim: nat, stride: nat)
    requires Distinct(ids)
    requires forall k :: 0 <= k < |ids| ==> 0 <= ids[k] < stride
    ensures Distinct(Replicated(ids, nDim, stride))
  {
    if nDim > 0 {
      var init := Replicated(ids, nDim - 1, stride);
      var last := Shifted(ids, (nDim - 1) * stride);
      ReplicatedDistinct(ids, nDim - 1, stride);
      ReplicatedBounds(ids, nDim - 1, stride);
      forall i, j | 0 <= i < |init| && 0 <= j < |last| ensures init[i] != last[j] {
        assert init[i] in init;
        assert last[j] >= (nDim - 1) * stride;
      }
      DistinctConcat(init, last);
    }
  }

  lemma {:induction false} ReplicatedEmpty(nDim: nat, stride: int)
    ensures Replicated([], nDim, stride) == []
  {
    if nDim > 0 {
      ReplicatedEmpty(nDim - 1, stride);
    }
  }

  /** Fills one interface list: for each dimension, each entry of the map in
      traversal order, the chosen side's id plus `dim * numTotalDof`. */
  method ReplicateSide(locDofMap: LocalDofMap, fluidSide: bool, nDim: nat, numTotalDof: nat)
    returns (dofInterface: seq<int>)
    ensures dofInterface == Replicated(if fluidSide then FluidIds(locDofMap) else StructureIds(locDofMap),
                                       nDim, numTotalDof)
  {
    ghost var ids := if fluidSide then FluidIds(locDofMap) else StructureIds(locDofMap);
    dofInterface := [];
    var dim := 0;
    while dim < nDim
      invariant 0 <= dim <= nDim
      invariant dofInterface == Replicated(ids, dim, numTotalDof)
    {
      var i := 0;
      while i < |locDofMap|
        invariant 0 <= i <= |locDofMap|
        invariant dofInterface == Replicated(ids, dim, numTotalDof) + Shifted(ids[..i], dim * numTotalDof)
      {
        var id := if fluidSide then locDofMap[i].fluid else locDofMap[i].structure;
        ShiftedStep(ids, dim * numTotalDof, i);
        dofInterface := dofInterface + [id + dim * numTotalDof];
        i := i + 1;
      }
      assert ids[..i] == ids;
      dim := dim + 1;
    }
  }

  /** The address handed to the MapEpetra constructor: the index of the first
      id, or null (None) for an empty list, as createInterfaceMaps guards it.
      It is always null or a valid index. */
  function ListPointer(ids: seq<int>): (p: Option<nat>)
    ensures p.Some? <==> |ids| > 0
    ensures p.Some? ==> p.value < |ids|
  {
    if |ids| > 0 then Some(0) else None
  }

  /** FSIHandler::createInterfaceMaps: the fluid list with stride the fluid
      velocity space's numTotalDof, then the structure list with stride the
      structure displacement space's numTotalDof. */
  method CreateInterfaceMaps(locDofMap: LocalDofMap, nDim: nat, fluidNumTotalDof: nat, structureNumTotalDof: nat)
    returns (dofInterfaceFluid: seq<int>, dofInterfaceSolid: seq<int>,
             pointerFluid: Option<nat>, pointerSolid: Option<nat>)
    ensures |dofInterfaceFluid| == nDim * |locDofMap| && |dofInterfaceSolid| == nDim * |locDofMap|
    ensures forall d: nat, k: nat :: d < nDim && k < |locDofMap| ==>
              dofInterfaceFluid[Slot(nDim, |locDofMap|, d, k)] == locDofMap[k].fluid + d * fluidNumTotalDof
    ensures forall d: nat, k: nat :: d < nDim && k < |locDofMap| ==>
              dofInterfaceSolid[Slot(nDim, |locDofMap|, d, k)] == locDofMap[k].structure + d * structureNumTotalDof
    ensures dofInterfaceFluid == Replicated(FluidIds(locDofMap), nDim, fluidNumTotalDof)
    ensures dofInterfaceSolid == Replicated(StructureIds(locDofMap), nDim, structureNumTotalDof)
    ensures pointerFluid == ListPointer(dofInterfaceFluid) && pointerSolid == ListPointer(dofInterfaceSolid)
  {
    dofInterfaceFluid := ReplicateSide(locDofMap, true, nDim, fluidNumTotalDof);
    pointerFluid := ListPointer(dofInterfaceFluid);
    dofInterfaceSolid := ReplicateSide(locDofMap, false, nDim, structureNumTotalDof);
    pointerSolid := ListPointer(dofInterfaceSolid);
    ReplicatedLength(FluidIds(locDofMap), nDim, fluidNumTotalDof);
    ReplicatedLength(StructureIds(locDofMap), nDim, structureNumTotalDof);
    forall d: nat, k: nat | d < nDim && k < |locDofMap|
      ensures dofInterfaceFluid[Slot(nDim, |locDofMap|, d, k)] == locDofMap[k].fluid + d * fluidNumTotalDof
    {
      ReplicatedAt(FluidIds(locDofMap), nDim, fluidNumTotalDof, d, k);
    }
    forall d: nat, k: nat | d < nDim && k < |locDofMap|
      ensures dofInterfaceSolid[Slot(nDim, |locDofMap|, d, k)] == locDofMap[k].structure + d * structureNumTotalDof
    {
      ReplicatedAt(StructureIds(locDofMap), nDim, structureNumTotalDof, d, k);
    }
  }

  /** An empty interface map gives two empty interface lists. */
  lemma EmptyInterfaceLists(nDim: nat, fluidNumTotalDof: nat, structureNumTotalDof: nat)
    ensures Replicated(FluidIds([]), nDim, fluidNumTotalDof) == []
    ensures Replicated(StructureIds([]), nDim, structureNumTotalDof) == []
  {
    assert FluidIds([]) == [] && StructureIds([]) == [];
    ReplicatedEmpty(nDim, fluidNumTotalDof);
    ReplicatedEmpty(nDim, structureNumTotalDof);
  }

  /** No id occurs twice in the fluid interface list when every key lies
      below fluidNumTotalDof: keys are distinct because the map is ordered. */
  lemma FluidListDistinct(m: LocalDofMap, nDim: nat, fluidNumTotalDof: nat)
    requires KeysAscending(m)
    requires forall k :: 0 <= k < |m| ==> m[k].fluid < fluidNumTotalDof
    ensures Distinct(Replicated(FluidIds(m), nDim, fluidNumTotalDof))
  {
    ReplicatedDistinct(FluidIds(m), nDim, fluidNumTotalDof);
  }

  /** No id occurs twice in the structure interface list when every value
      lies below structureNumTotalDof: values are distinct because the
      matching is injective. */
  lemma StructureListDistinct(m: LocalDofMap, nDim: nat, structureNumTotalDof: nat)
    requires Injective(m)
    requires forall k :: 0 <= k < |m| ==> m[k].structure < structureNumTotalDof
    ensures Distinct(Replicated(StructureIds(m), nDim, structureNumTotalDof))
  {
    ReplicatedDistinct(StructureIds(m), nDim, structureNumTotalDof);
  }
}
