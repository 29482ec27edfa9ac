/** Partition sizes and scores (daemon/sm.c, get_partition_size and get_partition_score). */
module Scores {
  import opened MachineInts
  import opened Hosts

  /** Total weight of the hosts of `m` below `n`. */
  function Weight(m: HostMap, w: seq<U32>, n: nat): nat
    requires n <= |w|
  {
    if n == 0 then 0 else Weight(m, w, n - 1) + if n - 1 in m then w[n - 1] else 0
  }

  /** Number of hosts of `m` below `n`. */
  function Count(m: HostMap, n: nat): (c: nat)
    ensures c <= n
  {
    if n == 0 then 0 else Count(m, n - 1) + if n - 1 in m then 1 else 0
  }

  /** Lowest host of `m` below `n`, or `n` when there is none. */
  function Lowest(m: HostMap, n: nat): (l: nat)
    ensures l <= n
    ensures l < n ==> l in m
    ensures forall i: nat :: i < l ==> i !in m
  {
    if n == 0 then 0
    else
      var l := Lowest(m, n - 1);
      if l < n - 1 then l else if n - 1 in m then n - 1 else n
  }

  function IndexScore(m: HostMap, n: nat): (s: nat)
    requires n <= MAX_HOST_NUM
    ensures s <= MAX_HOST_NUM
  {
    var l := Lowest(m, n);
    if l == n then 0 else MAX_HOST_NUM - l
  }

  /** The packed score that the merge loop compares. */
  function Score(m: HostMap, w: seq<U32>, n: nat): nat
    requires n <= |w| && n <= MAX_HOST_NUM
  {
    Weight(m, w, n) * 0x10000 + Count(m, n) * 0x100 + IndexScore(m, n)
  }

  /** Weight and count packed as the vote packs them, before any wrap-around. */
  function PackedSize(m: HostMap, w: seq<U32>, n: nat): nat
    requires n <= |w|
  {
    Count(m, n) + 0x100 * Weight(m, w, n)
  }

  /** The signed 32-bit partition size that the vote compares. */
  function PartitionSize(sfdomain: HostMap, hbdomain: HostMap, w: seq<U32>, n: nat): int
    requires n <= |w|
  {
    ToS32(PackedSize(sfdomain * hbdomain, w, n))
  }

  lemma {:induction false} WeightMonotone(a: HostMap, b: HostMap, w: seq<U32>, n: nat)
    requires n <= |w| && a <= b
    ensures Weight(a, w, n) <= Weight(b, w, n)
    ensures Count(a, n) <= Count(b, n)
  {
    if n > 0 {
      WeightMonotone(a, b, w, n - 1);
    }
  }

  lemma {:induction false} CountStrict(a: HostMap, b: HostMap, n: nat, x: nat)
    requires a <= b && x < n && x in b && x !in a
    ensures Count(a, n) < Count(b, n)
  {
    if x == n - 1 {
      WeightMonotone(a, b, seq(n, _ => 0), n - 1);
    } else {
      CountStrict(a, b, n - 1, x);
    }
  }

  lemma {:induction false} MapsAgree(a: HostMap, b: HostMap, w: seq<U32>, n: nat)
    requires n <= |w|
    requires forall i: nat :: i < n ==> (i in a <==> i in b)
    ensures Weight(a, w, n) == Weight(b, w, n)
    ensures Count(a, n) == Count(b, n)
    ensures Lowest(a, n) == Lowest(b, n)
  {
    if n > 0 {
      MapsAgree(a, b, w, n - 1);
    }
  }

  lemma {:induction false} EmptyMap(m: HostMap, w: seq<U32>, n: nat)
    requires n <= |w|
    requires forall i: nat :: i < n ==> i !in m
    ensures Weight(m, w, n) == 0
    ensures Count(m, n) == 0
  {
    if n > 0 {
      EmptyMap(m, w, n - 1);
    }
  }

  /** A single host counts once, with its own weight and its own index. */
  lemma {:induction false} WeightOfOne(h: nat, w: seq<U32>, n: nat)
    requires h < n <= |w|
    ensures Weight({h}, w, n) == w[h]
    ensures Count({h}, n) == 1
    ensures Lowest({h}, n) == h
  {
    if h == n - 1 {
      EmptyMap({h}, w, n - 1);
    } else {
      WeightOfOne(h, w, n - 1);
    }
  }

  /** Disjoint partitions add up. */
  lemma {:induction false} WeightAdds(a: HostMap, b: HostMap, w: seq<U32>, n: nat)
    requires n <= |w| && a * b == {}
    ensures Weight(a + b, w, n) == Weight(a, w, n) + Weight(b, w, n)
    ensures Count(a + b, n) == Count(a, n) + Count(b, n)
  {
    if n > 0 {
      assert n - 1 in a && n - 1 in b ==> n - 1 in a * b;
      WeightAdds(a, b, w, n - 1);
    }
  }

  /** The size of a single host in the vote, and its score in the merge. */
  lemma SizeOfOne(sfdomain: HostMap, h: nat, w: seq<U32>, n: nat)
    requires h < n <= |w| && h in sfdomain
    ensures PartitionSize(sfdomain, {h}, w, n) == ToS32(1 + 0x100 * w[h] as int)
    ensures n <= MAX_HOST_NUM ==> Score({h}, w, n) == w[h] * 0x10000 + 0x100 + (MAX_HOST_NUM - h)
  {
    assert sfdomain * {h} == {h};
    WeightOfOne(h, w, n);
  }

  lemma {:induction false} WeightBound(m: HostMap, w: seq<U32>, n: nat, most: nat)
    requires n <= |w|
    requires forall i :: 0 <= i < n ==> w[i] <= most
    ensures Weight(m, w, n) <= n * most
  {
    if n > 0 {
      WeightBound(m, w, n - 1, most);
      assert n * most == (n - 1) * most + most;
    } else {
      assert 0 * most == 0;
    }
  }

  /** A partition that loses any host scores strictly less. */
  lemma ScoreStrictlyMonotone(a: HostMap, b: HostMap, w: seq<U32>, n: nat)
    requires n <= |w| && n <= MAX_HOST_NUM
    requires a < b && b <= Configured(n)
    ensures Score(a, w, n) < Score(b, w, n)
  {
    var x :| x in b && x !in a;
    WeightMonotone(a, b, w, n);
    CountStrict(a, b, n, x);
    assert IndexScore(a, n) <= IndexScore(b, n) by {
      if Lowest(a, n) < Lowest(b, n) {
        assert Lowest(a, n) in b;
      }
    }
  }

  /** Weight decides first, then the number of hosts, then the lowest index. */
  ghost predicate LexLess(w1: nat, c1: nat, l1: nat, w2: nat, c2: nat, l2: nat) {
    w1 < w2 || (w1 == w2 && (c1 < c2 || (c1 == c2 && l1 > l2)))
  }

  lemma ScoreIsLexicographic(a: HostMap, b: HostMap, w: seq<U32>, n: nat)
    requires n <= |w| && n <= MAX_HOST_NUM
    ensures Score(a, w, n) < Score(b, w, n) <==>
            LexLess(Weight(a, w, n), Count(a, n), if Lowest(a, n) == n then MAX_HOST_NUM else Lowest(a, n),
                    Weight(b, w, n), Count(b, n), if Lowest(b, n) == n then MAX_HOST_NUM else Lowest(b, n))
  {
    PackedDigits(Weight(a, w, n), Count(a, n), IndexScore(a, n), Weight(b, w, n), Count(b, n), IndexScore(b, n));
  }

  lemma PackedDigits(w1: nat, c1: nat, i1: nat, w2: nat, c2: nat, i2: nat)
    requires c1 < 0x100 && c2 < 0x100 && i1 < 0x100 && i2 < 0x100
    ensures w1 * 0x10000 + c1 * 0x100 + i1 < w2 * 0x10000 + c2 * 0x100 + i2 <==>
            w1 < w2 || (w1 == w2 && (c1 < c2 || (c1 == c2 && i1 < i2)))
  {
  }

  /** The 64-bit score cannot overflow for any weights a 32-bit field can hold. */
  lemma ScoreFitsS64(m: HostMap, w: seq<U32>, n: nat)
    requires n <= |w| && n <= MAX_HOST_NUM
    ensures Score(m, w, n) < 0x4000_0000_0000_0000
  {
    WeightBound(m, w, n, TWO_32 - 1);
    assert n * (TWO_32 - 1) <= 64 * (TWO_32 - 1);
  }

  /** Below a total weight of 2^23 the vote's 32-bit size is exact. */
  lemma PartitionSizeExact(sfdomain: HostMap, hbdomain: HostMap, w: seq<U32>, n: nat)
    requires n <= |w| && n <= MAX_HOST_NUM
    requires Weight(Configured(n), w, n) < 0x80_0000
    ensures PartitionSize(sfdomain, hbdomain, w, n) == PackedSize(sfdomain * hbdomain, w, n)
  {
    var m := sfdomain * hbdomain;
    var conf := m * Configured(n);
    MapsAgree(m, conf, w, n);
    WeightMonotone(conf, Configured(n), w, n);
  }

  /** Built-in weight 1 plus sixteen classes of at most 65535. */
  const MAX_LEGAL_WEIGHT: nat := 1 + 16 * 65535

  /** Up to eight hosts at any legal weights stay below that total. */
  lemma EightHostsFit(w: seq<U32>, n: nat)
    requires n <= |w| && n <= 8
    requires forall i :: 0 <= i < n ==> w[i] <= MAX_LEGAL_WEIGHT
    ensures Weight(Configured(n), w, n) < 0x80_0000
  {
    WeightBound(Configured(n), w, n, MAX_LEGAL_WEIGHT);
    assert n * MAX_LEGAL_WEIGHT <= 8 * MAX_LEGAL_WEIGHT;
  }

  /** Without overflow the vote orders partitions by weight and then by number of hosts. */
  lemma PackedSizeIsLexicographic(a: HostMap, b: HostMap, w: seq<U32>, n: nat)
    requires n <= |w| && n <= MAX_HOST_NUM
    ensures PackedSize(a, w, n) < PackedSize(b, w, n) <==>
            Weight(a, w, n) < Weight(b, w, n) || (Weight(a, w, n) == Weight(b, w, n) && Count(a, n) < Count(b, n))
  {
  }

  /** Nine hosts at the greatest legal weight already wrap the 32-bit size to a negative number. */
  lemma NineHostsWrap()
    ensures var w: seq<U32> := seq(9, _ => MAX_LEGAL_WEIGHT);
            PartitionSize(Configured(9), Configured(9), w, 9) < 0
  {
    var w: seq<U32> := seq(9, _ => MAX_LEGAL_WEIGHT);
    assert Configured(9) * Configured(9) == Configured(9);
    FullPool(w, 9);
  }

  lemma {:induction false} FullPool(w: seq<U32>, k: nat)
    requires k <= |w| && k <= 9
    requires forall i :: 0 <= i < |w| ==> w[i] == MAX_LEGAL_WEIGHT
    ensures Weight(Configured(9), w, k) == k * MAX_LEGAL_WEIGHT && Count(Configured(9), k) == k
  {
    if k > 0 {
      FullPool(w, k - 1);
    }
  }

  /** get_partition_size: the accumulating loop wraps at every addition. */
  method GetPartitionSize(sfdomain: HostMap, hbdomain: HostMap, w: seq<U32>, n: nat) returns (size: int)
    requires n <= |w|
    ensures size == PartitionSize(sfdomain, hbdomain, w, n)
  {
    size := 0;
    if forall i | 0 <= i < n :: i !in sfdomain {
      EmptyMap(sfdomain * hbdomain, w, n);
      return;
    }
    ghost var m := sfdomain * hbdomain;
    for index := 0 to n
      invariant size == ToS32(PackedSize(m, w, index))
    {
      if index in sfdomain && index in hbdomain {
        ToS32Absorbs(PackedSize(m, w, index), 1);
        size := ToS32(size + 1);
        ghost var before := PackedSize(m, w, index) + 1;
        var weighted: int := 0x100 * w[index] as int;
        ToS32Absorbs(before, ToU32(weighted));
        ToS32AbsorbsU32(before, weighted);
        size := ToS32(size + ToU32(weighted));
        assert PackedSize(m, w, index + 1) == before + weighted;
      }
    }
  }

  /** get_partition_score: one downward scan accumulates all three digits. */
  method GetPartitionScore(hostmap: HostMap, w: seq<U32>, n: nat) returns (score: nat)
    requires n <= |w| && n <= MAX_HOST_NUM
    ensures score == Score(hostmap, w, n)
  {
    var weightScore, sizeScore, indexScore := 0, 0, 0;
    var index := n;
    while index > 0
      invariant 0 <= index <= n
      invariant weightScore + Weight(hostmap, w, index) == Weight(hostmap, w, n)
      invariant sizeScore + Count(hostmap, index) == Count(hostmap, n)
      invariant if Lowest(hostmap, index) < index then true
                else indexScore == IndexScore(hostmap, n)
      invariant Lowest(hostmap, index) < index ==> Lowest(hostmap, n) == Lowest(hostmap, index)
    {
      index := index - 1;
      LowestBelow(hostmap, index, n);
      if index in hostmap {
        weightScore := weightScore + w[index];
        sizeScore := sizeScore + 1;
        indexScore := MAX_HOST_NUM - index;
      }
    }
    score := weightScore * 0x10000 + sizeScore * 0x100 + indexScore;
  }

  lemma {:induction false} LowestBelow(m: HostMap, k: nat, n: nat)
    requires k < n
    ensures Lowest(m, k) < k ==> Lowest(m, n) == Lowest(m, k)
    ensures Lowest(m, k) == k && k in m ==> Lowest(m, n) == k
  {
    if n > k + 1 {
      LowestBelow(m, k, n - 1);
    }
  }
}
