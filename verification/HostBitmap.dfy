/**
 The MTC_HOSTMAP macros (include/sm.h): a host map is an array of two unsigned 32-bit words that they
 overwrite in place. Every macro refines an operation on sets of host indices.
 */
module HostBitmap {
  import opened MachineInts
  import opened Hosts

  const UNIT: nat := 32
  const WORDS: nat := 2

  // ---------------------------------------------------------------- words and their bits

  function Power2(k: nat): (p: nat)
    ensures p > 0
  {
    if k == 0 then 1 else 2 * Power2(k - 1)
  }

  /** Bit `k` of a number. */
  predicate On(w: nat, k: nat) {
    if k == 0 then w % 2 == 1 else On(w / 2, k - 1)
  }

  /** The operator `op`, applied to the lowest `n` bits of two numbers. */
  function Bitwise(op: (bool, bool) -> bool, x: nat, y: nat, n: nat): (r: nat)
    ensures r < Power2(n)
  {
    if n == 0 then 0
    else 2 * Bitwise(op, x / 2, y / 2, n - 1) + if op(x % 2 == 1, y % 2 == 1) then 1 else 0
  }

  lemma {:induction false} BitwiseOn(op: (bool, bool) -> bool, x: nat, y: nat, n: nat, k: nat)
    requires k < n
    ensures On(Bitwise(op, x, y, n), k) == op(On(x, k), On(y, k))
    decreases n
  {
    if k > 0 {
      BitwiseOn(op, x / 2, y / 2, n - 1, k - 1);
    }
  }

  lemma {:induction false} PowerOn(k: nat, l: nat)
    ensures On(Power2(k), l) <==> k == l
    decreases l
  {
    if k > 0 && l > 0 {
      PowerOn(k - 1, l - 1);
    } else if l > 0 {
      ZeroOn(l - 1);
    }
  }

  lemma {:induction false} ZeroOn(k: nat)
    ensures !On(0, k)
    decreases k
  {
    if k > 0 {
      ZeroOn(k - 1);
    }
  }

  /** Numbers of `n` bits with the same bits are equal. */
  lemma {:induction false} SameBits(x: nat, y: nat, n: nat)
    requires x < Power2(n) && y < Power2(n)
    requires forall k: nat :: k < n ==> (On(x, k) <==> On(y, k))
    ensures x == y
    decreases n
  {
    if n > 0 {
      assert On(x, 0) <==> On(y, 0);
      forall k: nat | k < n - 1
        ensures On(x / 2, k) <==> On(y / 2, k)
      {
        assert On(x, k + 1) <==> On(y, k + 1);
      }
      SameBits(x / 2, y / 2, n - 1);
    }
  }

  lemma WordSize()
    ensures Power2(UNIT) == TWO_32
  {
    assert Power2(8) == 0x100;
    assert Power2(16) == 0x1_0000;
    assert Power2(24) == 0x100_0000;
  }

  predicate Either(a: bool, b: bool) { a || b }

  predicate Both(a: bool, b: bool) { a && b }

  predicate NotFirst(a: bool, b: bool) { !a }

  function Word(op: (bool, bool) -> bool, x: U32, y: U32): U32 {
    WordSize();
    Bitwise(op, x, y, UNIT)
  }

  /** x | y */
  function Or(x: U32, y: U32): U32 {
    Word(Either, x, y)
  }

  /** x & y */
  function And(x: U32, y: U32): U32 {
    Word(Both, x, y)
  }

  /** ~x */
  function Not(x: U32): U32 {
    Word(NotFirst, x, 0)
  }

  lemma OnOps(x: U32, y: U32, k: nat)
    requires k < UNIT
    ensures On(Or(x, y), k) <==> On(x, k) || On(y, k)
    ensures On(And(x, y), k) <==> On(x, k) && On(y, k)
    ensures On(Not(x), k) <==> !On(x, k)
  {
    BitwiseOn(Either, x, y, UNIT, k);
    BitwiseOn(Both, x, y, UNIT, k);
    BitwiseOn(NotFirst, x, 0, UNIT, k);
  }

  /** _bitloc: 1 << k */
  function Bit(k: nat): U32
    requires k < UNIT
  {
    PowerFits(k);
    Power2(k)
  }

  lemma {:induction false} PowerFits(k: nat)
    requires k < UNIT
    ensures Power2(k) < TWO_32
  {
    PowerGrows(k, UNIT);
    WordSize();
  }

  lemma {:induction false} PowerGrows(k: nat, n: nat)
    requires k < n
    ensures Power2(k) < Power2(n)
    decreases n
  {
    if k < n - 1 {
      PowerGrows(k, n - 1);
    }
  }

  /** Setting, clearing or masking the bit `k`, seen at the bit `l`. */
  lemma OnOneBit(x: U32, k: nat, l: nat)
    requires k < UNIT && l < UNIT
    ensures On(Or(x, Bit(k)), l) <==> On(x, l) || k == l
    ensures On(And(x, Not(Bit(k))), l) <==> On(x, l) && k != l
    ensures On(And(x, Bit(k)), l) <==> On(x, l) && k == l
  {
    PowerOn(k, l);
    OnOps(x, Bit(k), l);
    OnOps(Bit(k), 0, l);
    OnOps(x, Not(Bit(k)), l);
  }

  /** The test of MTC_HOSTMAP_ISON: masking leaves zero iff the bit is off. */
  lemma MaskedIsOn(x: U32, k: nat)
    requires k < UNIT
    ensures And(x, Bit(k)) != 0 <==> On(x, k)
  {
    OnOneBit(x, k, k);
    ZeroOn(k);
    if !On(x, k) {
      WordSize();
      forall l: nat | l < UNIT
        ensures On(And(x, Bit(k)), l) <==> On(0, l)
      {
        OnOneBit(x, k, l);
        ZeroOn(l);
      }
      SameBits(And(x, Bit(k)), 0, UNIT);
    }
  }

  const ALL_ONES: U32 := 0xffff_ffff

  lemma OnesOn(k: nat)
    requires k < UNIT
    ensures On(ALL_ONES, k)
  {
    OnesOfPower(UNIT, k);
    WordSize();
  }

  lemma {:induction false} OnesOfPower(n: nat, k: nat)
    requires k < n
    ensures On(Power2(n) - 1, k)
    decreases k
  {
    if k > 0 {
      OnesOfPower(n - 1, k - 1);
    }
  }

  // ---------------------------------------------------------------- a bitmap as a set

  /** MTC_HOSTMAP_ISON */
  predicate IsOn(b: seq<U32>, i: nat)
    requires |b| == WORDS && i < MAX_HOST_NUM
  {
    And(b[i / UNIT], Bit(i % UNIT)) != 0
  }

  predicate At(b: seq<U32>, i: nat)
    requires |b| == WORDS && i < MAX_HOST_NUM
  {
    On(b[i / UNIT], i % UNIT)
  }

  ghost function Members(b: seq<U32>): (m: HostMap)
    requires |b| == WORDS
  {
    set i: nat | i < MAX_HOST_NUM && At(b, i)
  }

  lemma IsOnIsMember(b: seq<U32>, i: nat)
    requires |b| == WORDS && i < MAX_HOST_NUM
    ensures IsOn(b, i) <==> i in Members(b)
  {
    MaskedIsOn(b[i / UNIT], i % UNIT);
  }

  /** A bitmap represents exactly one set: the macros may compare maps word by word. */
  lemma MembersDetermineWords(a: seq<U32>, b: seq<U32>)
    requires |a| == |b| == WORDS && Members(a) == Members(b)
    ensures a == b
  {
    forall w | 0 <= w < WORDS
      ensures a[w] == b[w]
    {
      forall k: nat | k < UNIT
        ensures On(a[w], k) <==> On(b[w], k)
      {
        var i := w * UNIT + k;
        assert i / UNIT == w && i % UNIT == k;
        assert i in Members(a) <==> i in Members(b);
      }
      WordSize();
      SameBits(a[w], b[w], UNIT);
    }
  }

  /** The word operations on whole maps. */
  lemma UnionOfWords(x: seq<U32>, y: seq<U32>, z: seq<U32>)
    requires |x| == |y| == |z| == WORDS && forall w :: 0 <= w < WORDS ==> z[w] == Or(x[w], y[w])
    ensures Members(z) == Members(x) + Members(y)
  {
    forall i: nat | i < MAX_HOST_NUM
      ensures At(z, i) <==> At(x, i) || At(y, i)
    {
      OnOps(x[i / UNIT], y[i / UNIT], i % UNIT);
    }
  }

  lemma IntersectionOfWords(x: seq<U32>, y: seq<U32>, z: seq<U32>)
    requires |x| == |y| == |z| == WORDS && forall w :: 0 <= w < WORDS ==> z[w] == And(x[w], y[w])
    ensures Members(z) == Members(x) * Members(y)
  {
    forall i: nat | i < MAX_HOST_NUM
      ensures At(z, i) <==> At(x, i) && At(y, i)
    {
      OnOps(x[i / UNIT], y[i / UNIT], i % UNIT);
    }
  }

  lemma DifferenceOfWords(x: seq<U32>, y: seq<U32>, z: seq<U32>)
    requires |x| == |y| == |z| == WORDS && forall w :: 0 <= w < WORDS ==> z[w] == And(x[w], Not(y[w]))
    ensures Members(z) == Members(x) - Members(y)
  {
    forall i: nat | i < MAX_HOST_NUM
      ensures At(z, i) <==> At(x, i) && !At(y, i)
    {
      OnOps(y[i / UNIT], 0, i % UNIT);
      OnOps(x[i / UNIT], Not(y[i / UNIT]), i % UNIT);
    }
  }

  lemma ComplementOfWords(x: seq<U32>, z: seq<U32>)
    requires |x| == |z| == WORDS && forall w :: 0 <= w < WORDS ==> z[w] == Not(x[w])
    ensures Members(z) == Configured(MAX_HOST_NUM) - Members(x)
  {
    forall i: nat | i < MAX_HOST_NUM
      ensures At(z, i) <==> !At(x, i)
    {
      OnOps(x[i / UNIT], 0, i % UNIT);
    }
  }

  lemma SetMember(x: seq<U32>, h: nat)
    requires |x| == WORDS && h < MAX_HOST_NUM
    ensures Members(x[h / UNIT := Or(x[h / UNIT], Bit(h % UNIT))]) == Members(x) + {h}
    ensures Members(x[h / UNIT := And(x[h / UNIT], Not(Bit(h % UNIT)))]) == Members(x) - {h}
  {
    var w := h / UNIT;
    var s, r := x[w := Or(x[w], Bit(h % UNIT))], x[w := And(x[w], Not(Bit(h % UNIT)))];
    forall i: nat | i < MAX_HOST_NUM
      ensures At(s, i) <==> At(x, i) || i == h
      ensures At(r, i) <==> At(x, i) && i != h
    {
      if i / UNIT == w {
        OnOneBit(x[w], h % UNIT, i % UNIT);
      }
    }
  }

  // ---------------------------------------------------------------- the macros

  /** MTC_HOSTMAP_SET */
  method Set(b: array<U32>, hostnum: nat)
    requires b.Length == WORDS && hostnum < MAX_HOST_NUM
    modifies b
    ensures Members(b[..]) == old(Members(b[..])) + {hostnum}
  {
    SetMember(b[..], hostnum);
    b[hostnum / UNIT] := Or(b[hostnum / UNIT], Bit(hostnum % UNIT));
  }

  /** MTC_HOSTMAP_RESET */
  method Reset(b: array<U32>, hostnum: nat)
    requires b.Length == WORDS && hostnum < MAX_HOST_NUM
    modifies b
    ensures Members(b[..]) == old(Members(b[..])) - {hostnum}
  {
    SetMember(b[..], hostnum);
    b[hostnum / UNIT] := And(b[hostnum / UNIT], Not(Bit(hostnum % UNIT)));
  }

  /** MTC_HOSTMAP_SET_BOOLEAN */
  method SetBoolean(b: array<U32>, hostnum: nat, boolean: bool)
    requires b.Length == WORDS && hostnum < MAX_HOST_NUM
    modifies b
    ensures Members(b[..]) == if boolean then old(Members(b[..])) + {hostnum} else old(Members(b[..])) - {hostnum}
  {
    if boolean {
      Set(b, hostnum);
    } else {
      Reset(b, hostnum);
    }
  }

  /** MTC_HOSTMAP_INIT_RESET */
  method InitReset(b: array<U32>)
    requires b.Length == WORDS
    modifies b
    ensures Members(b[..]) == {}
  {
    for i := 0 to WORDS
      invariant forall w :: 0 <= w < i ==> b[w] == 0
    {
      b[i] := 0;
    }
    forall i: nat | i < MAX_HOST_NUM
      ensures !At(b[..], i)
    {
      ZeroOn(i % UNIT);
    }
  }

  /** MTC_HOSTMAP_INIT_SET */
  method InitSet(b: array<U32>)
    requires b.Length == WORDS
    modifies b
    ensures Members(b[..]) == Configured(MAX_HOST_NUM)
  {
    for i := 0 to WORDS
      invariant forall w :: 0 <= w < i ==> b[w] == ALL_ONES
    {
      b[i] := ALL_ONES;
    }
    forall i: nat | i < MAX_HOST_NUM
      ensures At(b[..], i)
    {
      OnesOn(i % UNIT);
    }
  }

  /** MTC_HOSTMAP_COMPARE: whether the maps differ. */
  method Compare(b1: array<U32>, b2: array<U32>) returns (differ: bool)
    requires b1.Length == b2.Length == WORDS
    ensures differ <==> Members(b1[..]) != Members(b2[..])
  {
    if Members(b1[..]) == Members(b2[..]) {
      MembersDetermineWords(b1[..], b2[..]);
    }
    for i := 0 to WORDS
      invariant b1[..i] == b2[..i]
    {
      var x, y: int := b1[i], b2[i];
      if ToU32(x - y) != 0 {
        assert b1[..][i] != b2[..][i];
        return true;
      }
    }
    assert b1[..] == b2[..];
    return false;
  }

  /** MTC_HOSTMAP_SUBSETEQUAL */
  method SubsetEqual(b1: array<U32>, b2: array<U32>) returns (ret: bool)
    requires b1.Length == b2.Length == WORDS
    ensures ret <==> Members(b1[..]) <= Members(b2[..])
  {
    ghost var m1, m2 := Members(b1[..]), Members(b2[..]);
    for i := 0 to MAX_HOST_NUM
      invariant forall j: nat :: j < i && j in m1 ==> j in m2
    {
      IsOnIsMember(b1[..], i);
      IsOnIsMember(b2[..], i);
      if IsOn(b1[..], i) && !IsOn(b2[..], i) {
        return false;
      }
    }
    return true;
  }

  /** MTC_HOSTMAP_DIFFERENCE; the result may overwrite an operand, as in all of these. */
  method Difference(b1: array<U32>, b2: array<U32>, b3: array<U32>)
    requires b1.Length == b2.Length == b3.Length == WORDS
    modifies b1
    ensures Members(b1[..]) == old(Members(b2[..])) - old(Members(b3[..]))
  {
    ghost var x, y := b2[..], b3[..];
    for i := 0 to WORDS
      invariant forall w :: 0 <= w < i ==> b1[w] == And(x[w], Not(y[w]))
      invariant forall w :: i <= w < WORDS ==> b2[w] == x[w] && b3[w] == y[w]
    {
      b1[i] := And(b2[i], Not(b3[i]));
    }
    DifferenceOfWords(x, y, b1[..]);
  }

  /** MTC_HOSTMAP_UNION */
  method Union(b1: array<U32>, b2: array<U32>, b3: array<U32>)
    requires b1.Length == b2.Length == b3.Length == WORDS
    modifies b1
    ensures Members(b1[..]) == old(Members(b2[..])) + old(Members(b3[..]))
  {
    ghost var x, y := b2[..], b3[..];
    for i := 0 to WORDS
      invariant forall w :: 0 <= w < i ==> b1[w] == Or(x[w], y[w])
      invariant forall w :: i <= w < WORDS ==> b2[w] == x[w] && b3[w] == y[w]
    {
      b1[i] := Or(b2[i], b3[i]);
    }
    UnionOfWords(x, y, b1[..]);
  }

  /** MTC_HOSTMAP_INTERSECTION */
  method Intersection(b1: array<U32>, b2: array<U32>, b3: array<U32>)
    requires b1.Length == b2.Length == b3.Length == WORDS
    modifies b1
    ensures Members(b1[..]) == old(Members(b2[..])) * old(Members(b3[..]))
  {
    ghost var x, y := b2[..], b3[..];
    for i := 0 to WORDS
      invariant forall w :: 0 <= w < i ==> b1[w] == And(x[w], y[w])
      invariant forall w :: i <= w < WORDS ==> b2[w] == x[w] && b3[w] == y[w]
    {
      b1[i] := And(b2[i], b3[i]);
    }
    IntersectionOfWords(x, y, b1[..]);
  }

  /** MTC_HOSTMAP_COMPLEMENT */
  method Complement(b1: array<U32>, b2: array<U32>)
    requires b1.Length == b2.Length == WORDS
    modifies b1
    ensures Members(b1[..]) == Configured(MAX_HOST_NUM) - old(Members(b2[..]))
  {
    ghost var x := b2[..];
    for i := 0 to WORDS
      invariant forall w :: 0 <= w < i ==> b1[w] == Not(x[w])
      invariant forall w :: i <= w < WORDS ==> b2[w] == x[w]
    {
      b1[i] := Not(b2[i]);
    }
    ComplementOfWords(x, b1[..]);
  }

  /** MTC_HOSTMAP_MASK_UNCONFIG in a pool of `n` hosts. */
  method MaskUnconfig(b: array<U32>, n: nat)
    requires b.Length == WORDS
    modifies b
    ensures Members(b[..]) == old(Members(b[..])) * Configured(n)
  {
    ghost var was := Members(b[..]);
    for i := 0 to MAX_HOST_NUM
      invariant Members(b[..]) <= was
      invariant forall j: nat :: j in was ==> (j in Members(b[..]) <==> j < n || j >= i)
    {
      if i >= n {
        Reset(b, i);
      }
    }
    assert forall j: nat :: j in was ==> j < MAX_HOST_NUM;
  }
}
