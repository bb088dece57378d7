/** Machine-level vocabulary shared by the whole model: the C integer widths of
    the 32-bit target, bytes, MAC addresses, the two directed-configuration
    slots and an optional value. */
module Machine {

  /** 2^32: the modulus of C `unsigned int` arithmetic on the target. */
  const TwoTo32: int := 0x1_0000_0000

  /** A C `unsigned int`. */
  type U32 = x: int | 0 <= x < 0x1_0000_0000

  /** A C `int`. */
  type I32 = x: int | -0x8000_0000 <= x < 0x8000_0000

  /** An `unsigned char`. */
  type Byte = x: int | 0 <= x < 256

  /** A six-byte Ethernet MAC address (MAC_ADDRESS_BYTES). */
  type Mac = m: seq<Byte> | |m| == 6 witness [0, 0, 0, 0, 0, 0]

  /** Index of one of the two directed-configuration slots. */
  type Slot = x: int | 0 <= x < 2

  /** The slot that is not `i` (the C idiom `i ? 0 : 1`). */
  function Other(i: Slot): (j: Slot)
    ensures j != i
  {
    1 - i
  }

  /** Conversion of any integer to `unsigned int`: reduction modulo 2^32. */
  function ToU32(x: int): (r: U32)
    ensures 0 <= x < TwoTo32 ==> r == x
    ensures (r - x) % TwoTo32 == 0
  {
    x % TwoTo32
  }

  /** Saturation of a value into the range of a 32-bit `long`, as `strtol`
      (and so `atoi`) does on the target. */
  function Clamp32(x: int): (r: I32)
    ensures -0x8000_0000 <= x < 0x8000_0000 ==> r == x
    ensures x >= 0 ==> r >= 0
    ensures x <= 0 ==> r <= 0
  {
    if x < -0x8000_0000 then -0x8000_0000
    else if x >= 0x8000_0000 then 0x7fff_ffff
    else x
  }

  datatype Option<T> = None | Some(value: T)

  /** A two-element table indexed by a slot: the C arrays `x[2]`. */
  datatype Pair<T> = Pair(zero: T, one: T) {

    function Get(i: Slot): T {
      if i == 0 then zero else one
    }

    /** Overwrites entry `i`; the other entry keeps its value. */
    function Set(i: Slot, v: T): (p: Pair<T>)
      ensures p.Get(i) == v
      ensures p.Get(Other(i)) == Get(Other(i))
    {
      if i == 0 then Pair(v, one) else Pair(zero, v)
    }
  }
}
