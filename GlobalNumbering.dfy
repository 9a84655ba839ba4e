/** What constructInterfaceMap achieves across all ranks together: when every
    rank contributes nDim ids per owned interface point, the numbering of the
    interface points, and the multiplier map made of all ranks' coupling
    lists, is gap-free and without duplicates. */
module GlobalNumbering {
  import opened SeqUtil
  import opened InterfaceMaps
  import opened InterfaceNumbering

  lemma MulGap(c: nat, a: int, b: int)
    requires a < b
    ensures c * a + c <= c * b
  {
    var t := b - a - 1;
    assert c * t >= 0;
    assert c * b == c * a + c * t + c;
  }

  lemma DivExact(c: nat, x: int)
    requires c > 0
    ensures (c * x) / c == x
  {
    var y := c * x;
    var q := y / c;
    var rem := y % c;
    assert y == c * q + rem && 0 <= rem < c;
    if q < x {
      MulGap(c, q, x);
      assert false;
    } else if x < q {
      MulGap(c, x, q);
      assert false;
    }
  }

  /** With counts nDim * owned[r], rank r's first id offset[r] / nDim is the
      number of interface points owned by the ranks before it. */
  lemma ScaledScanBase(owned: seq<nat>, nDim: nat, r: nat)
    requires nDim > 0 && r < |owned|
    ensures ExclusiveScan(Scaled(owned, nDim))[r] / nDim == Sum(owned[..r])
  {
    ScaledPrefix(owned, nDim, r);
    SumScaled(owned[..r], nDim);
    DivExact(nDim, Sum(owned[..r]));
  }

  lemma ScaledTotal(owned: seq<nat>, nDim: nat)
    requires nDim > 0
    ensures Sum(Scaled(owned, nDim)) / nDim == Sum(owned)
  {
    SumScaled(owned, nDim);
    DivExact(nDim, Sum(owned));
  }

  /** The consecutive id blocks of the first k ranks. */
  function RankBlocks(owned: seq<nat>, k: nat): (ss: seq<seq<int>>)
    requires k <= |owned|
    ensures |ss| == k
  {
    seq(k, r requires 0 <= r < k => Range(Sum(owned[..r]), owned[r]))
  }

  /** The first k ranks' consecutive blocks tile [0, owned[0] + ... + owned[k-1]). */
  lemma {:induction false} RanksTile(owned: seq<nat>, k: nat)
    requires k <= |owned|
    ensures Flatten(RankBlocks(owned, k)) == Range(0, Sum(owned[..k]))
  {
    if k == 0 {
      assert owned[..0] == [];
    } else {
      var ss := RankBlocks(owned, k);
      assert ss[..k - 1] == RankBlocks(owned, k - 1);
      assert Flatten(ss) == Flatten(RankBlocks(owned, k - 1)) + Range(Sum(owned[..k - 1]), owned[k - 1]);
      RanksTile(owned, k - 1);
      RangeAppend(0, Sum(owned[..k - 1]), owned[k - 1]);
      SumPrefixStep(owned, k - 1);
    }
  }

  /** Gap-free numbering of the interface points: the dimension-0 ids of all
      ranks, in rank order, are exactly 0, 1, ..., N - 1. */
  lemma GapFreeInterfaceIds(owned: seq<nat>, nDim: nat)
    requires nDim > 0
    ensures Flatten(seq(|owned|, r requires 0 <= r < |owned| =>
                          Range(ExclusiveScan(Scaled(owned, nDim))[r] / nDim, owned[r]))) ==
            Range(0, Sum(owned))
  {
    var counts := Scaled(owned, nDim);
    forall r | 0 <= r < |owned|
      ensures ExclusiveScan(counts)[r] / nDim == Sum(owned[..r])
    {
      ScaledScanBase(owned, nDim, r);
    }
    assert seq(|owned|, r requires 0 <= r < |owned| => Range(ExclusiveScan(counts)[r] / nDim, owned[r])) ==
           RankBlocks(owned, |owned|);
    RanksTile(owned, |owned|);
    assert owned[..|owned|] == owned;
  }

  /** Every interface point lies in exactly the block of some rank. */
  lemma {:induction false} FindRank(owned: seq<nat>, i: int) returns (r: nat)
    requires 0 <= i < Sum(owned)
    ensures r < |owned| && Sum(owned[..r]) <= i < Sum(owned[..r]) + owned[r]
  {
    var n := |owned|;
    var init := owned[..n - 1];
    assert owned[..n - 1] == init;
    if i < Sum(init) {
      r := FindRank(init, i);
      assert owned[..r] == init[..r];
    } else {
      r := n - 1;
    }
  }

  /** The multiplier map: the coupling lists of all ranks, in rank order. */
  function MultiplierIds(owned: seq<nat>, nDim: nat): seq<int>
    requires nDim > 0
  {
    Flatten(seq(|owned|, r requires 0 <= r < |owned| =>
                  RankCouplingIds(Scaled(owned, nDim), r, nDim, owned[r])))
  }

  lemma MultiplierBlocks(owned: seq<nat>, nDim: nat)
    requires nDim > 0
    ensures seq(|owned|, r requires 0 <= r < |owned| => RankCouplingIds(Scaled(owned, nDim), r, nDim, owned[r])) ==
            seq(|owned|, r requires 0 <= r < |owned| => Replicated(Range(Sum(owned[..r]), owned[r]), nDim, Sum(owned)))
  {
    forall r | 0 <= r < |owned|
      ensures RankCouplingIds(Scaled(owned, nDim), r, nDim, owned[r]) ==
              Replicated(Range(Sum(owned[..r]), owned[r]), nDim, Sum(owned))
    {
      ScaledScanBase(owned, nDim, r);
      ScaledTotal(owned, nDim);
    }
  }

  lemma MultiplierLength(owned: seq<nat>, nDim: nat)
    requires nDim > 0
    ensures |MultiplierIds(owned, nDim)| == nDim * Sum(owned)
  {
    var ss := seq(|owned|, r requires 0 <= r < |owned| => RankCouplingIds(Scaled(owned, nDim), r, nDim, owned[r]));
    FlattenLength(ss);
    forall r | 0 <= r < |owned| ensures Lengths(ss)[r] == Scaled(owned, nDim)[r] {
      ReplicatedLength(Range(ExclusiveScan(Scaled(owned, nDim))[r] / nDim, owned[r]), nDim,
                       Sum(Scaled(owned, nDim)) / nDim);
    }
    assert Lengths(ss) == Scaled(owned, nDim);
    SumScaled(owned, nDim);
  }

  /** Rank r's block of interface points lies within [0, N). */
  lemma RankBlockBounds(owned: seq<nat>, r: nat)
    requires r < |owned|
    ensures forall k :: 0 <= k < owned[r] ==>
              0 <= Range(Sum(owned[..r]), owned[r])[k] < Sum(owned)
  {
    SumPrefixMonotone(owned, r + 1, |owned|);
    SumPrefixStep(owned, r);
    assert owned[..|owned|] == owned;
  }

  lemma MultiplierMemberBounded(owned: seq<nat>, nDim: nat, v: int)
    requires nDim > 0
    requires v in MultiplierIds(owned, nDim)
    ensures 0 <= v < nDim * Sum(owned)
  {
    var n := Sum(owned);
    var ss := seq(|owned|, r requires 0 <= r < |owned| => Replicated(Range(Sum(owned[..r]), owned[r]), nDim, n));
    MultiplierBlocks(owned, nDim);
    FlattenMember(ss, v);
    var r :| 0 <= r < |owned| && v in ss[r];
    RankBlockBounds(owned, r);
    ReplicatedBounds(Range(Sum(owned[..r]), owned[r]), nDim, n);
  }

  /** Whatever rank r's coupling list holds, the multiplier map holds. */
  lemma RankBlockInMultiplier(owned: seq<nat>, nDim: nat, r: nat, v: int)
    requires nDim > 0 && r < |owned|
    requires v in Replicated(Range(Sum(owned[..r]), owned[r]), nDim, Sum(owned))
    ensures v in MultiplierIds(owned, nDim)
  {
    var ss := seq(|owned|, r requires 0 <= r < |owned| => Replicated(Range(Sum(owned[..r]), owned[r]), nDim, Sum(owned)));
    MultiplierBlocks(owned, nDim);
    assert v in ss[r];
    FlattenMember(ss, v);
  }

  /** Copy d of interface point i belongs to the multiplier map. */
  lemma MultiplierHasPoint(owned: seq<nat>, nDim: nat, d: nat, i: int)
    requires d < nDim && 0 <= i < Sum(owned)
    ensures d * Sum(owned) + i in MultiplierIds(owned, nDim)
  {
    var n := Sum(owned);
    var r := FindRank(owned, i);
    var ids := Range(Sum(owned[..r]), owned[r]);
    var k: nat := i - Sum(owned[..r]);
    assert d * n + i == Entry(ids, n, d, k);
    ReplicatedMember(ids, nDim, n, d * n + i);
    RankBlockInMultiplier(owned, nDim, r, d * n + i);
  }

  /** Every id below nDim * N splits into a copy d < nDim and a point i < N. */
  lemma SplitId(n: nat, nDim: nat, v: int) returns (d: nat, i: int)
    requires 0 <= v < nDim * n
    ensures d < nDim && 0 <= i < n && v == d * n + i
  {
    d := v / n;
    i := v % n;
    if d >= nDim {
      MulGap(n, nDim - 1, d);
      assert false;
    }
  }

  lemma MultiplierMemberCovers(owned: seq<nat>, nDim: nat, v: int)
    requires nDim > 0
    requires 0 <= v < nDim * Sum(owned)
    ensures v in MultiplierIds(owned, nDim)
  {
    var d, i := SplitId(Sum(owned), nDim, v);
    MultiplierHasPoint(owned, nDim, d, i);
  }

  /** The Lagrange multiplier map built from all ranks' coupling lists is a
      bijection onto 0 .. nDim * N - 1: it has nDim * N entries, contains
      exactly those ids, and no id twice. */
  lemma GapFreeMultiplierMap(owned: seq<nat>, nDim: nat)
    requires nDim > 0
    ensures |MultiplierIds(owned, nDim)| == nDim * Sum(owned)
    ensures forall v :: v in MultiplierIds(owned, nDim) <==> 0 <= v < nDim * Sum(owned)
    ensures Distinct(MultiplierIds(owned, nDim))
  {
    var g := MultiplierIds(owned, nDim);
    var size := nDim * Sum(owned);
    MultiplierLength(owned, nDim);
    forall v ensures v in g <==> 0 <= v < size {
      if v in g {
        MultiplierMemberBounded(owned, nDim, v);
      }
      if 0 <= v < size {
        MultiplierMemberCovers(owned, nDim, v);
      }
    }
    assert size >= 0;
    forall v ensures v in Range(0, size) <==> 0 <= v < size {
      RangeMember(0, size, v);
    }
    assert Elements(g) == Elements(Range(0, size));
    RangeDistinct(0, size);
    ElementsCardinality(g);
  }

  /** The counts gathered from the ranks: rank r contributes the size of its
      unique structure interface map us[r]. */
  function GatheredCounts(us: seq<seq<int>>): seq<int>
  {
    seq(|us|, r requires 0 <= r < |us| => |us[r]|)
  }

  /** How many entries of its interface map ms[r] each rank owns. */
  function OwnedCounts(ms: seq<LocalDofMap>, us: seq<seq<int>>): seq<nat>
    requires |ms| == |us|
  {
    seq(|ms|, r requires 0 <= r < |ms| => |OwnedPairs(ms[r], us[r])|)
  }

  /** Every rank's unique structure interface map holds exactly nDim ids per
      interface point it owns. */
  predicate ExactCounts(ms: seq<LocalDofMap>, us: seq<seq<int>>, nDim: nat)
  {
    |ms| == |us| &&
    forall r :: 0 <= r < |ms| ==> |us[r]| == nDim * |OwnedPairs(ms[r], us[r])|
  }

  /** Under ExactCounts the gathered counts are nDim times the owned counts,
      which is the shape the lemmas above take as their hypothesis. */
  lemma CountsFromRanks(ms: seq<LocalDofMap>, us: seq<seq<int>>, nDim: nat)
    requires ExactCounts(ms, us, nDim)
    ensures GatheredCounts(us) == Scaled(OwnedCounts(ms, us), nDim)
  {
  }

  /** The coupling list rank r computes from the gathered counts, its own
      map and its own unique ids; ConstructInterfaceMap returns this list on
      rank r when its map is injective and broadcastCounts is the gather. */
  function RankCoupling(ms: seq<LocalDofMap>, us: seq<seq<int>>, nDim: nat, r: nat): seq<int>
    requires |ms| == |us| && r < |ms| && nDim > 0
  {
    RankCouplingIds(GatheredCounts(us)[r := |us[r]|], r, nDim, |OwnedPairs(ms[r], us[r])|)
  }

  /** The Lagrange multiplier map assembled from the coupling lists of all
      ranks, each computed from that rank's own map and unique ids, is a
      bijection onto 0 .. nDim * N - 1, where N is the number of owned
      interface points over all ranks, provided every rank's count is
      exact. */
  lemma GapFreeFromRanks(ms: seq<LocalDofMap>, us: seq<seq<int>>, nDim: nat)
    requires nDim > 0 && ExactCounts(ms, us, nDim)
    ensures var ids := Flatten(seq(|ms|, r requires 0 <= r < |ms| => RankCoupling(ms, us, nDim, r)));
            |ids| == nDim * Sum(OwnedCounts(ms, us)) &&
            (forall v :: v in ids <==> 0 <= v < nDim * Sum(OwnedCounts(ms, us))) &&
            Distinct(ids)
  {
    var owned := OwnedCounts(ms, us);
    CountsFromRanks(ms, us, nDim);
    var lists := seq(|ms|, r requires 0 <= r < |ms| => RankCoupling(ms, us, nDim, r));
    var expected := seq(|owned|, r requires 0 <= r < |owned| =>
                          RankCouplingIds(Scaled(owned, nDim), r, nDim, owned[r]));
    forall r | 0 <= r < |ms|
      ensures lists[r] == expected[r]
    {
      assert GatheredCounts(us)[r := |us[r]|] == GatheredCounts(us);
    }
    assert lists == expected;
    GapFreeMultiplierMap(owned, nDim);
  }
}
