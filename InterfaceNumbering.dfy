/** The rank-local part of FSIHandler::constructInterfaceMap: the exclusive
    prefix sum of the per-rank interface counts, the sequential numbering of
    the locally owned interface points, and the list of Lagrange-multiplier
    (coupling) ids this rank contributes. */
module InterfaceNumbering {
  import opened SeqUtil
  import opened InterfaceMaps

  /** Reference definition of the rank offsets: entry j is the total count of
      the ranks before j. */
  function ExclusiveScan(counts: seq<int>): (offsets: seq<int>)
    ensures |offsets| == |counts|
  {
    seq(|counts|, j requires 0 <= j < |counts| => Sum(counts[..j]))
  }

  /** Rank 0 starts at 0, each offset exceeds the previous one by the previous
      rank's count, and the last offset plus the last count is the total. */
  lemma ExclusiveScanSteps(counts: seq<int>)
    ensures |counts| > 0 ==> ExclusiveScan(counts)[0] == 0
    ensures forall j {:trigger counts[j]} :: 0 <= j < |counts| - 1 ==>
              ExclusiveScan(counts)[j + 1] == ExclusiveScan(counts)[j] + counts[j]
    ensures |counts| > 0 ==>
              ExclusiveScan(counts)[|counts| - 1] + counts[|counts| - 1] == Sum(counts)
  {
    forall j | 0 <= j < |counts| - 1
      ensures ExclusiveScan(counts)[j + 1] == ExclusiveScan(counts)[j] + counts[j]
    {
      SumPrefixStep(counts, j);
    }
    if |counts| > 0 {
      assert counts[..0] == [];
      SumPrefixStep(counts, |counts| - 1);
      assert counts[..|counts|] == counts;
    }
  }

  /** With non-negative counts the offsets are non-negative, nondecreasing and
      bounded by the total. */
  lemma ExclusiveScanMonotone(counts: seq<int>, i: nat, j: nat)
    requires i <= j < |counts|
    requires forall k :: 0 <= k < |counts| ==> counts[k] >= 0
    ensures 0 <= ExclusiveScan(counts)[i] <= ExclusiveScan(counts)[j] <= Sum(counts)
  {
    SumPrefixMonotone(counts, i, j);
    SumPrefixMonotone(counts, j, |counts|);
    assert counts[..|counts|] == counts;
  }

  /** The shift loop: each count moves one rank up and rank 0 gets 0. */
  method ShiftCounts(numInterfaceDof: array<int>)
    requires numInterfaceDof.Length > 0
    modifies numInterfaceDof
    ensures numInterfaceDof[0] == 0
    ensures forall i :: 0 < i < numInterfaceDof.Length ==> numInterfaceDof[i] == old(numInterfaceDof[i - 1])
  {
    var numtasks := numInterfaceDof.Length;
    var j := numtasks - 1;
    while j > 0
      invariant 0 <= j <= numtasks - 1
      invariant forall i :: 0 <= i <= j ==> numInterfaceDof[i] == old(numInterfaceDof[i])
      invariant forall i :: j < i < numtasks ==> numInterfaceDof[i] == old(numInterfaceDof[i - 1])
    {
      numInterfaceDof[j] := numInterfaceDof[j - 1];
      j := j - 1;
    }
    numInterfaceDof[0] := 0;
  }

  /** The accumulate loop: each entry adds the already accumulated entry
      before it. Applied to the shifted counts it yields the rank offsets. */
  method AccumulateCounts(numInterfaceDof: array<int>, ghost counts: seq<int>)
    requires numInterfaceDof.Length == |counts| > 0
    requires numInterfaceDof[0] == 0
    requires forall i :: 0 < i < |counts| ==> numInterfaceDof[i] == counts[i - 1]
    modifies numInterfaceDof
    ensures numInterfaceDof[..] == ExclusiveScan(counts)
  {
    var numtasks := numInterfaceDof.Length;
    ExclusiveScanSteps(counts);
    var j := 1;
    while j < numtasks
      invariant 1 <= j <= numtasks
      invariant forall i :: 0 <= i < j ==> numInterfaceDof[i] == ExclusiveScan(counts)[i]
      invariant forall i :: j <= i < numtasks ==> numInterfaceDof[i] == counts[i - 1]
    {
      numInterfaceDof[j] := numInterfaceDof[j] + numInterfaceDof[j - 1];
      j := j + 1;
    }
    assert forall i :: 0 <= i < numtasks ==> numInterfaceDof[..][i] == ExclusiveScan(counts)[i];
  }

  /** The shift loop followed by the accumulate loop, in place on the array
      of gathered counts: afterwards it holds the exclusive prefix sum. */
  method ShiftAndAccumulate(numInterfaceDof: array<int>)
    requires numInterfaceDof.Length > 0
    modifies numInterfaceDof
    ensures numInterfaceDof[..] == ExclusiveScan(old(numInterfaceDof[..]))
  {
    ghost var counts := numInterfaceDof[..];
    ShiftCounts(numInterfaceDof);
    AccumulateCounts(numInterfaceDof, counts);
  }

  /** The entries of the interface map whose structure DOF this rank owns (its
      id is in the unique structure interface map), in traversal order. */
  function OwnedPairs(m: LocalDofMap, uniqueIds: seq<int>): seq<DofPair>
  {
    if m == [] then []
    else OwnedPairs(m[..|m| - 1], uniqueIds) +
         (if m[|m| - 1].structure in uniqueIds then [m[|m| - 1]] else [])
  }

  lemma {:induction false} OwnedPairsFrom(m: LocalDofMap, uniqueIds: seq<int>)
    ensures forall q :: q in OwnedPairs(m, uniqueIds) ==> q in m && q.structure in uniqueIds
  {
    if m != [] {
      OwnedPairsFrom(m[..|m| - 1], uniqueIds);
      forall q | q in OwnedPairs(m[..|m| - 1], uniqueIds) ensures q in m {
        var i :| 0 <= i < |m| - 1 && m[..|m| - 1][i] == q;
        assert m[i] == q;
      }
    }
  }

  /** The numeration vector after the numbering loop, keyed by structure DOF:
      the next owned entry gets `base` plus the number of owned entries before
      it; an entry that is not owned writes nothing. */
  function Numeration(m: LocalDofMap, uniqueIds: seq<int>, base: int): map<nat, int>
  {
    if m == [] then map[]
    else
      var prev := Numeration(m[..|m| - 1], uniqueIds, base);
      var s := m[|m| - 1].structure;
      if s in uniqueIds then prev[s := base + |OwnedPairs(m[..|m| - 1], uniqueIds)|] else prev
  }

  /** The numeration holds an id for a structure DOF exactly when the DOF is
      in the interface map and owned by this rank. */
  lemma {:induction false} NumerationKeys(m: LocalDofMap, uniqueIds: seq<int>, base: int, s: nat)
    ensures s in Numeration(m, uniqueIds, base) <==> s in uniqueIds && s in StructureIds(m)
  {
    if m != [] {
      var init := m[..|m| - 1];
      var last := m[|m| - 1].structure;
      NumerationKeys(init, uniqueIds, base, s);
      assert StructureIds(m) == StructureIds(init) + [last];
      assert s in StructureIds(m) <==> s in StructureIds(init) || s == last;
    }
  }

  /** Sequential numbering: the k-th owned entry gets id `base + k`. */
  lemma {:induction false} NumerationSequential(m: LocalDofMap, uniqueIds: seq<int>, base: int)
    requires Injective(m)
    ensures forall k :: 0 <= k < |OwnedPairs(m, uniqueIds)| ==>
              OwnedPairs(m, uniqueIds)[k].structure in Numeration(m, uniqueIds, base) &&
              Numeration(m, uniqueIds, base)[OwnedPairs(m, uniqueIds)[k].structure] == base + k
  {
    if m != [] {
      var init := m[..|m| - 1];
      var p := m[|m| - 1];
      assert Injective(init);
      NumerationSequential(init, uniqueIds, base);
      if p.structure in uniqueIds {
        OwnedPairsFrom(init, uniqueIds);
        var owned := OwnedPairs(m, uniqueIds);
        forall k | 0 <= k < |owned|
          ensures owned[k].structure in Numeration(m, uniqueIds, base)
          ensures Numeration(m, uniqueIds, base)[owned[k].structure] == base + k
        {
          if k < |OwnedPairs(init, uniqueIds)| {
            var q := OwnedPairs(init, uniqueIds)[k];
            assert q in OwnedPairs(init, uniqueIds);
            var i :| 0 <= i < |init| && init[i] == q;
            assert m[i] == q;
            assert q.structure != p.structure;
          }
        }
      }
    }
  }

  /** The value the consistency check compares the stored id with: the floor
      of the expected id plus 0.2, in floating point. */
  function CheckedId(l: nat, offset: nat, nDim: nat): (r: int)
    requires nDim > 0
    ensures r == l + offset / nDim
  {
    ((l + offset / nDim) as real + 0.2).Floor
  }

  /** The numbering loop: ids start at `offset / nDim`; `mismatch` records
      whether the consistency check would have printed its error message. */
  method NumberInterface(locDofMap: LocalDofMap, uniqueIds: seq<int>, offset: nat, nDim: nat)
    returns (numeration: map<nat, int>, l: nat, mismatch: bool)
    requires nDim > 0
    ensures numeration == Numeration(locDofMap, uniqueIds, offset / nDim)
    ensures l == |OwnedPairs(locDofMap, uniqueIds)|
    ensures !mismatch
  {
    numeration := map[];
    mismatch := false;
    l := 0;
    var i := 0;
    while i < |locDofMap|
      invariant 0 <= i <= |locDofMap|
      invariant numeration == Numeration(locDofMap[..i], uniqueIds, offset / nDim)
      invariant l == |OwnedPairs(locDofMap[..i], uniqueIds)|
      invariant !mismatch
    {
      assert locDofMap[..i + 1][..i] == locDofMap[..i];
      var s := locDofMap[i].structure;
      if s in uniqueIds {
        numeration := numeration[s := l + offset / nDim];
        if numeration[s] != CheckedId(l, offset, nDim) {
          mismatch := true;
        }
        l := l + 1;
      }
      i := i + 1;
    }
    assert locDofMap[..i] == locDofMap;
  }

  /** The stored ids of the owned entries, in traversal order. */
  function OwnedNumbers(m: LocalDofMap, uniqueIds: seq<int>, numeration: map<nat, int>): seq<int>
    requires forall i :: 0 <= i < |m| && m[i].structure in uniqueIds ==> m[i].structure in numeration
  {
    if m == [] then []
    else OwnedNumbers(m[..|m| - 1], uniqueIds, numeration) +
         (if m[|m| - 1].structure in uniqueIds then [numeration[m[|m| - 1].structure]] else [])
  }

  lemma {:induction false} OwnedNumbersAt(m: LocalDofMap, uniqueIds: seq<int>, numeration: map<nat, int>)
    requires forall i :: 0 <= i < |m| && m[i].structure in uniqueIds ==> m[i].structure in numeration
    ensures forall q :: q in OwnedPairs(m, uniqueIds) ==> q.structure in numeration
    ensures |OwnedNumbers(m, uniqueIds, numeration)| == |OwnedPairs(m, uniqueIds)|
    ensures forall k :: 0 <= k < |OwnedPairs(m, uniqueIds)| ==>
              OwnedNumbers(m, uniqueIds, numeration)[k] == numeration[OwnedPairs(m, uniqueIds)[k].structure]
  {
    OwnedPairsFrom(m, uniqueIds);
    if m != [] {
      OwnedNumbersAt(m[..|m| - 1], uniqueIds, numeration);
    }
  }

  lemma NumerationCoversOwned(m: LocalDofMap, uniqueIds: seq<int>, base: int)
    ensures forall i :: 0 <= i < |m| && m[i].structure in uniqueIds ==>
              m[i].structure in Numeration(m, uniqueIds, base)
  {
    forall i | 0 <= i < |m| && m[i].structure in uniqueIds
      ensures m[i].structure in Numeration(m, uniqueIds, base)
    {
      assert StructureIds(m)[i] == m[i].structure;
      NumerationKeys(m, uniqueIds, base, m[i].structure);
    }
  }

  /** With an injective interface map, the ids read back for the owned entries
      are the consecutive integers from `base`. */
  lemma OwnedNumbersConsecutive(m: LocalDofMap, uniqueIds: seq<int>, base: int)
    requires Injective(m)
    ensures forall i :: 0 <= i < |m| && m[i].structure in uniqueIds ==>
              m[i].structure in Numeration(m, uniqueIds, base)
    ensures OwnedNumbers(m, uniqueIds, Numeration(m, uniqueIds, base)) ==
            Range(base, |OwnedPairs(m, uniqueIds)|)
  {
    NumerationCoversOwned(m, uniqueIds, base);
    OwnedNumbersAt(m, uniqueIds, Numeration(m, uniqueIds, base));
    NumerationSequential(m, uniqueIds, base);
  }

  /** The coupling list loop: for each dimension, the stored id of each owned
      entry plus `dim * mInterface`. */
  method CollectCoupling(locDofMap: LocalDofMap, uniqueIds: seq<int>, numeration: map<nat, int>,
                         nDim: nat, mInterface: nat)
    returns (couplingVector: seq<int>)
    requires forall i :: 0 <= i < |locDofMap| && locDofMap[i].structure in uniqueIds ==>
               locDofMap[i].structure in numeration
    ensures couplingVector == Replicated(OwnedNumbers(locDofMap, uniqueIds, numeration), nDim, mInterface)
  {
    ghost var ids := OwnedNumbers(locDofMap, uniqueIds, numeration);
    couplingVector := [];
    var dim := 0;
    while dim < nDim
      invariant 0 <= dim <= nDim
      invariant couplingVector == Replicated(ids, dim, mInterface)
    {
      var i := 0;
      while i < |locDofMap|
        invariant 0 <= i <= |locDofMap|
        invariant couplingVector == Replicated(ids, dim, mInterface) +
                                    Shifted(OwnedNumbers(locDofMap[..i], uniqueIds, numeration), dim * mInterface)
      {
        assert locDofMap[..i + 1][..i] == locDofMap[..i];
        var s := locDofMap[i].structure;
        if s in uniqueIds {
          ghost var before := OwnedNumbers(locDofMap[..i], uniqueIds, numeration);
          assert Shifted(before + [numeration[s]], dim * mInterface) ==
                 Shifted(before, dim * mInterface) + [numeration[s] + dim * mInterface];
          couplingVector := couplingVector + [numeration[s] + dim * mInterface];
        }
        i := i + 1;
      }
      assert locDofMap[..i] == locDofMap;
      dim := dim + 1;
    }
  }

  /** The address `&couplingVector[0]` that constructInterfaceMap hands to
      the Lagrange multiplier map, as written: the first entry is indexed
      without a guard, which is defined only for a non-empty list. */
  function UnguardedPointer(ids: seq<int>): (p: nat)
    requires |ids| > 0
    ensures p < |ids|
  {
    0
  }

  /** A rank none of whose interface entries it owns collects an empty
      coupling list, so UnguardedPointer's requirement fails on it; for
      instance the map [DofPair(5, 7)] on a rank whose unique map lacks 7. */
  lemma {:induction false} NoOwnedPointsNoCoupling(m: LocalDofMap, uniqueIds: seq<int>, numeration: map<nat, int>,
                                                   nDim: nat, mInterface: int)
    requires forall i :: 0 <= i < |m| ==> m[i].structure !in uniqueIds
    ensures OwnedNumbers(m, uniqueIds, numeration) == []
    ensures Replicated(OwnedNumbers(m, uniqueIds, numeration), nDim, mInterface) == []
  {
    if m != [] {
      NoOwnedPointsNoCoupling(m[..|m| - 1], uniqueIds, numeration, nDim, mInterface);
    }
    ReplicatedEmpty(nDim, mInterface);
  }

  /** The coupling ids of rank `r` that owns `owned` interface points, when
      every rank gathered the same `counts`: its consecutive ids from
      `offset[r] / nDim`, replicated with stride `M_interface`. */
  function RankCouplingIds(counts: seq<int>, r: nat, nDim: nat, owned: nat): seq<int>
    requires r < |counts| && nDim > 0
  {
    Replicated(Range(ExclusiveScan(counts)[r] / nDim, owned), nDim, Sum(counts) / nDim)
  }

  /** FSIHandler::constructInterfaceMap on rank `pid`. `broadcastCounts[j]` is
      the count rank j broadcasts; this rank's own entry is the size of its
      unique structure interface map. M_interface is that map's global size
      (the sum of the gathered counts) divided by nDim. */
  method ConstructInterfaceMap(locDofMap: LocalDofMap, uniqueIds: seq<int>, pid: nat,
                               broadcastCounts: seq<nat>, nDim: nat)
    returns (offsets: seq<int>, numeration: map<nat, int>, l: nat, mismatch: bool, couplingVector: seq<int>,
             lagrangePointer: Option<nat>)
    requires pid < |broadcastCounts| && nDim > 0
    ensures offsets == ExclusiveScan(broadcastCounts[pid := |uniqueIds|])
    ensures 0 <= offsets[pid]
    ensures numeration == Numeration(locDofMap, uniqueIds, offsets[pid] / nDim)
    ensures l == |OwnedPairs(locDofMap, uniqueIds)|
    ensures !mismatch
    ensures forall i :: 0 <= i < |locDofMap| && locDofMap[i].structure in uniqueIds ==>
              locDofMap[i].structure in numeration
    ensures couplingVector ==
              Replicated(OwnedNumbers(locDofMap, uniqueIds, numeration), nDim,
                         Sum(broadcastCounts[pid := |uniqueIds|]) / nDim)
    ensures Injective(locDofMap) ==>
              couplingVector == RankCouplingIds(broadcastCounts[pid := |uniqueIds|], pid, nDim, l)
    ensures lagrangePointer == ListPointer(couplingVector)
  {
    var counts: seq<int> := broadcastCounts[pid := |uniqueIds|];
    var numtasks := |broadcastCounts|;
    var numInterfaceDof := new int[numtasks];
    numInterfaceDof[pid] := |uniqueIds|;
    // Broadcast from root j: rank j keeps its own count, the others receive it.
    for j := 0 to numtasks
      invariant forall i :: 0 <= i < j ==> numInterfaceDof[i] == counts[i]
      invariant numInterfaceDof[pid] == |uniqueIds|
    {
      if j != pid {
        numInterfaceDof[j] := broadcastCounts[j];
      }
    }
    assert numInterfaceDof[..] == counts;
    ShiftAndAccumulate(numInterfaceDof);
    offsets := numInterfaceDof[..];
    ExclusiveScanMonotone(counts, pid, pid);
    var offset: nat := numInterfaceDof[pid];
    numeration, l, mismatch := NumberInterface(locDofMap, uniqueIds, offset, nDim);
    NumerationCoversOwned(locDofMap, uniqueIds, offset / nDim);
    if Injective(locDofMap) {
      OwnedNumbersConsecutive(locDofMap, uniqueIds, offset / nDim);
    }
    var globalSize := Sum(counts);
    var mInterface: nat := globalSize / nDim;
    couplingVector := CollectCoupling(locDofMap, uniqueIds, numeration, nDim, mInterface);
    lagrangePointer := ListPointer(couplingVector);
  }
}
