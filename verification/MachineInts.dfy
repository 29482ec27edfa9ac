/** The fixed-width integers of include/mtctypes.h, with their wrap-around written out. */
module MachineInts {

  const TWO_31: int := 0x8000_0000
  const TWO_32: int := 0x1_0000_0000

  type U32 = x: int | 0 <= x < TWO_32

  /** The value an unsigned 32-bit variable holds after `x` is stored in it. */
  function ToU32(x: int): (r: U32)
    ensures 0 <= x < TWO_32 ==> r == x
  {
    x % TWO_32
  }

  /** The value a signed 32-bit variable holds after `x` is stored in it. */
  function ToS32(x: int): (r: int)
    ensures -TWO_31 <= r < TWO_31
    ensures -TWO_31 <= x < TWO_31 ==> r == x
  {
    (x + TWO_31) % TWO_32 - TWO_31
  }

  lemma ModShift(a: int, k: int)
    ensures (a + k * TWO_32) % TWO_32 == a % TWO_32
  {
    var q := (a + k * TWO_32) / TWO_32;
    var p := a / TWO_32;
    assert a + k * TWO_32 == q * TWO_32 + (a + k * TWO_32) % TWO_32;
    assert a == p * TWO_32 + a % TWO_32;
  }

  /** Wrapping at every addition or once at the end gives the same signed word. */
  lemma ToS32Absorbs(a: int, b: int)
    ensures ToS32(ToS32(a) + b) == ToS32(a + b)
  {
    var q := (a + TWO_31) / TWO_32;
    assert ToS32(a) == a - q * TWO_32;
    ModShift(a + b + TWO_31, -q);
  }

  lemma ToS32AbsorbsU32(a: int, b: int)
    ensures ToS32(a + ToU32(b)) == ToS32(a + b)
  {
    var q := b / TWO_32;
    assert ToU32(b) == b - q * TWO_32;
    ModShift(a + b + TWO_31, -q);
  }

  /** Wrapping at every addition or once at the end gives the same unsigned word. */
  lemma ToU32Absorbs(a: int, b: int)
    ensures ToU32(ToU32(a) + b) == ToU32(a + b)
  {
    var q := a / TWO_32;
    assert ToU32(a) == a - q * TWO_32;
    ModShift(a + b, -q);
  }
}
