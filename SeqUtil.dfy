/** Shared helpers of the interface and block-layout models: the `Option`
    type (a possibly null pointer, a possibly null operator block) and
    sequence arithmetic: sums, integer ranges, distinctness and flattening
    of per-rank lists. */
module SeqUtil {

  /** A value that may be absent: a null pointer or an empty block. */
  datatype Option<T> = None | Some(value: T)

  /** The sum of a sequence, peeled from the right so that a prefix sum
      grows by one element at a time, as an accumulating loop does. */
  function Sum(s: seq<int>): (r: int)
    ensures (forall k :: 0 <= k < |s| ==> s[k] >= 0) ==> r >= 0
  {
    if s == [] then 0 else Sum(s[..|s| - 1]) + s[|s| - 1]
  }

  lemma {:induction false} SumPrefixStep(s: seq<int>, j: nat)
    requires j < |s|
    ensures Sum(s[..j + 1]) == Sum(s[..j]) + s[j]
  {
    assert s[..j + 1][..j] == s[..j];
  }

  /** Sums of non-negative entries grow with the prefix. */
  lemma {:induction false} SumPrefixMonotone(s: seq<int>, i: nat, j: nat)
    requires i <= j <= |s|
    requires forall k :: 0 <= k < |s| ==> s[k] >= 0
    ensures 0 <= Sum(s[..i]) <= Sum(s[..j])
  {
    if j == 0 {
      assert s[..0] == [];
    } else {
      SumPrefixMonotone(s, if i == j then i - 1 else i, j - 1);
      SumPrefixStep(s, j - 1);
    }
  }

  /** Each entry scaled by a constant factor. */
  function Scaled(s: seq<int>, c: int): (r: seq<int>)
    ensures |r| == |s|
  {
    seq(|s|, i requires 0 <= i < |s| => c * s[i])
  }

  lemma {:induction false} SumScaled(s: seq<int>, c: int)
    ensures Sum(Scaled(s, c)) == c * Sum(s)
  {
    if s != [] {
      var init := s[..|s| - 1];
      var last := s[|s| - 1];
      assert Scaled(s, c)[..|s| - 1] == Scaled(init, c);
      SumScaled(init, c);
      assert Sum(Scaled(s, c)) == c * Sum(init) + c * last;
      MulDistributes(c, Sum(init), last);
    }
  }

  lemma MulDistributes(c: int, a: int, b: int)
    ensures c * (a + b) == c * a + c * b
  {
  }

  lemma ScaledPrefix(s: seq<int>, c: int, j: nat)
    requires j <= |s|
    ensures Scaled(s, c)[..j] == Scaled(s[..j], c)
  {
  }

  /** The consecutive integers lo, lo + 1, ..., lo + n - 1. */
  function Range(lo: int, n: nat): (r: seq<int>)
    ensures |r| == n
  {
    seq(n, i requires 0 <= i < n => lo + i)
  }

  lemma RangeAppend(lo: int, a: nat, b: nat)
    ensures Range(lo, a) + Range(lo + a, b) == Range(lo, a + b)
  {
    var s := Range(lo, a) + Range(lo + a, b);
    assert forall i :: 0 <= i < |s| ==> s[i] == lo + i;
  }

  predicate Distinct(s: seq<int>)
  {
    forall i, j :: 0 <= i < j < |s| ==> s[i] != s[j]
  }

  lemma DistinctConcat(a: seq<int>, b: seq<int>)
    requires Distinct(a) && Distinct(b)
    requires forall i, j :: 0 <= i < |a| && 0 <= j < |b| ==> a[i] != b[j]
    ensures Distinct(a + b)
  {
    forall i, j | 0 <= i < j < |a + b| ensures (a + b)[i] != (a + b)[j] {
      if j < |a| {
      } else if i >= |a| {
        assert (a + b)[i] == b[i - |a|] && (a + b)[j] == b[j - |a|];
      } else {
        assert (a + b)[j] == b[j - |a|];
      }
    }
  }

  function Elements(s: seq<int>): set<int>
  {
    set x | x in s
  }

  /** Pigeonhole: a sequence has at most as many distinct values as entries,
      and exactly as many precisely when no value repeats. */
  lemma {:induction false} ElementsCardinality(s: seq<int>)
    ensures |Elements(s)| <= |s|
    ensures |Elements(s)| == |s| <==> Distinct(s)
  {
    if s == [] {
      assert Elements(s) == {};
    } else {
      var t := s[1..];
      ElementsCardinality(t);
      assert Elements(s) == {s[0]} + Elements(t);
      assert forall i :: 1 <= i < |s| ==> s[i] == t[i - 1];
      if s[0] in t {
        assert Elements(s) == Elements(t);
        var k :| 0 <= k < |t| && t[k] == s[0];
        assert s[k + 1] == s[0];
      } else {
        assert |Elements(s)| == 1 + |Elements(t)|;
        if Distinct(s) {
          assert Distinct(t);
        }
      }
    }
  }

  lemma RangeMember(lo: int, n: nat, v: int)
    ensures v in Range(lo, n) <==> lo <= v < lo + n
  {
    if lo <= v < lo + n {
      assert Range(lo, n)[v - lo] == v;
    }
  }

  lemma RangeDistinct(lo: int, n: nat)
    ensures Distinct(Range(lo, n)) && |Elements(Range(lo, n))| == n
  {
    ElementsCardinality(Range(lo, n));
  }

  /** The concatenation of a list of lists, in order. */
  function Flatten(ss: seq<seq<int>>): seq<int>
  {
    if ss == [] then [] else Flatten(ss[..|ss| - 1]) + ss[|ss| - 1]
  }

  function Lengths(ss: seq<seq<int>>): (r: seq<int>)
    ensures |r| == |ss|
  {
    seq(|ss|, i requires 0 <= i < |ss| => |ss[i]|)
  }

  lemma {:induction false} FlattenLength(ss: seq<seq<int>>)
    ensures |Flatten(ss)| == Sum(Lengths(ss))
  {
    if ss != [] {
      assert Lengths(ss)[..|ss| - 1] == Lengths(ss[..|ss| - 1]);
      FlattenLength(ss[..|ss| - 1]);
    }
  }

  lemma {:induction false} FlattenMember(ss: seq<seq<int>>, v: int)
    ensures v in Flatten(ss) <==> exists r :: 0 <= r < |ss| && v in ss[r]
  {
    if ss != [] {
      var init := ss[..|ss| - 1];
      FlattenMember(init, v);
      if v in Flatten(ss) && v !in ss[|ss| - 1] {
        var r :| 0 <= r < |init| && v in init[r];
        assert v in ss[r];
      }
      if exists r :: 0 <= r < |ss| && v in ss[r] {
        var r :| 0 <= r < |ss| && v in ss[r];
        if r < |ss| - 1 {
          assert v in init[r];
        }
      }
    }
  }
}
