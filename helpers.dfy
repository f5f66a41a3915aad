/** The small pure helpers of the debugger module: the byte swaps that convert
    the big-endian values of the remote agent to host order, the half swap
    applied to the condition register, and the address mapping used for jump
    prediction. */
module Helpers {
  import opened Words
  import opened Wrappers

  /** The four bytes of a 32-bit value, least significant first. */
  function Lanes32(x: bv32): seq<bv32> {
    [x & 0xff, (x >> 8) & 0xff, (x >> 16) & 0xff, (x >> 24) & 0xff]
  }

  /** The eight bytes of a 64-bit value, least significant first. */
  function Lanes64(x: bv64): seq<bv64> {
    [x & 0xff, (x >> 8) & 0xff, (x >> 16) & 0xff, (x >> 24) & 0xff,
     (x >> 32) & 0xff, (x >> 40) & 0xff, (x >> 48) & 0xff, (x >> 56) & 0xff]
  }

  function Reverse<T>(s: seq<T>): (r: seq<T>)
    ensures |r| == |s|
    ensures forall k :: 0 <= k < |s| ==> r[k] == s[|s| - 1 - k]
  {
    if s == [] then [] else Reverse(s[1..]) + [s[0]]
  }

  /** bswap32. */
  function Bswap32(x: bv32): bv32 {
    ((x << 24) & 0xff000000) |
    ((x <<  8) & 0x00ff0000) |
    ((x >>  8) & 0x0000ff00) |
    ((x >> 24) & 0x000000ff)
  }

  /** bswap64. */
  function Bswap64(x: bv64): bv64 {
    ((x << 56) & 0xff00000000000000) |
    ((x << 40) & 0x00ff000000000000) |
    ((x << 24) & 0x0000ff0000000000) |
    ((x <<  8) & 0x000000ff00000000) |
    ((x >>  8) & 0x00000000ff000000) |
    ((x >> 24) & 0x0000000000ff0000) |
    ((x >> 40) & 0x000000000000ff00) |
    ((x >> 56) & 0x00000000000000ff)
  }

  /** The bytes of bswap32, one by one. */
  lemma Bswap32Bytes(x: bv32)
    ensures Bswap32(x) & 0xff == (x >> 24) & 0xff
    ensures (Bswap32(x) >> 8) & 0xff == (x >> 16) & 0xff
    ensures (Bswap32(x) >> 16) & 0xff == (x >> 8) & 0xff
    ensures (Bswap32(x) >> 24) & 0xff == x & 0xff
  {
  }

  /** bswap32 reverses the byte order. */
  lemma Bswap32Lanes(x: bv32)
    ensures Lanes32(Bswap32(x)) == Reverse(Lanes32(x))
  {
    var l := Lanes32(x);
    Bswap32Bytes(x);
    assert Reverse(l) == [l[3], l[2], l[1], l[0]];
  }

  /** The bytes of bswap64, one by one. */
  lemma Bswap64Bytes(x: bv64)
    ensures Bswap64(x) & 0xff == (x >> 56) & 0xff
    ensures (Bswap64(x) >> 8) & 0xff == (x >> 48) & 0xff
    ensures (Bswap64(x) >> 16) & 0xff == (x >> 40) & 0xff
    ensures (Bswap64(x) >> 24) & 0xff == (x >> 32) & 0xff
    ensures (Bswap64(x) >> 32) & 0xff == (x >> 24) & 0xff
    ensures (Bswap64(x) >> 40) & 0xff == (x >> 16) & 0xff
    ensures (Bswap64(x) >> 48) & 0xff == (x >> 8) & 0xff
    ensures (Bswap64(x) >> 56) & 0xff == x & 0xff
  {
  }

  /** bswap64 reverses the byte order. */
  lemma Bswap64Lanes(x: bv64)
    ensures Lanes64(Bswap64(x)) == Reverse(Lanes64(x))
  {
    var l := Lanes64(x);
    Bswap64Bytes(x);
    assert Reverse(l) == [l[7], l[6], l[5], l[4], l[3], l[2], l[1], l[0]];
  }

  /** Two values with the same bytes are equal. */
  lemma Lanes32Injective(x: bv32, y: bv32)
    requires Lanes32(x) == Lanes32(y)
    ensures x == y
  {
    assert Lanes32(x)[0] == Lanes32(y)[0] && Lanes32(x)[1] == Lanes32(y)[1];
    assert Lanes32(x)[2] == Lanes32(y)[2] && Lanes32(x)[3] == Lanes32(y)[3];
  }

  lemma Lanes64Injective(x: bv64, y: bv64)
    requires Lanes64(x) == Lanes64(y)
    ensures x == y
  {
    assert Lanes64(x)[0] == Lanes64(y)[0] && Lanes64(x)[1] == Lanes64(y)[1];
    assert Lanes64(x)[2] == Lanes64(y)[2] && Lanes64(x)[3] == Lanes64(y)[3];
    assert Lanes64(x)[4] == Lanes64(y)[4] && Lanes64(x)[5] == Lanes64(y)[5];
    assert Lanes64(x)[6] == Lanes64(y)[6] && Lanes64(x)[7] == Lanes64(y)[7];
  }

  /** Swapping the bytes twice gives back the original 32-bit value. */
  lemma Bswap32Involution(x: bv32)
    ensures Bswap32(Bswap32(x)) == x
  {
    var l := Lanes32(x);
    Bswap32Lanes(x);
    Bswap32Lanes(Bswap32(x));
    assert Lanes32(Bswap32(Bswap32(x))) == Reverse(Reverse(l));
    assert Reverse(Reverse(l)) == l;
    Lanes32Injective(Bswap32(Bswap32(x)), x);
  }

  /** Swapping the bytes twice gives back the original 64-bit value. */
  lemma Bswap64Involution(x: bv64)
    ensures Bswap64(Bswap64(x)) == x
  {
    var l := Lanes64(x);
    Bswap64Lanes(x);
    Bswap64Lanes(Bswap64(x));
    assert Lanes64(Bswap64(Bswap64(x))) == Reverse(Reverse(l));
    assert Reverse(Reverse(l)) == l;
    Lanes64Injective(Bswap64(Bswap64(x)), x);
  }

  /** The condition-register fix-up of read_registers: the two 32-bit halves
      of the 64-bit register value trade places. */
  function CrHalfSwap(v: bv64): (r: bv64)
    ensures r == v.RotateLeft(32)
    ensures r >> 32 == v & 0xFFFF_FFFF && r & 0xFFFF_FFFF == v >> 32
  {
    (v << 32) | (v >> 32)
  }

  /** Swapping the halves twice is the identity. */
  lemma CrHalfSwapInvolution(v: bv64)
    ensures CrHalfSwap(CrHalfSwap(v)) == v
  {
  }

  /** map_address: with no register context (jump prediction) the answer is
      BADADDR; otherwise the register value is an address exactly when it lies
      strictly between 0x10200 and 2^32. */
  function MapAddress(off: Addr, regs: Option<seq<U64>>, regnum: int): (r: Addr)
    requires regs.Some? ==> 0 <= regnum < |regs.value|
    ensures regs.None? ==> r == BADADDR
    ensures regs.Some? && 0x10200 < regs.value[regnum] < 0x1_0000_0000 ==> r as int == regs.value[regnum] as int
    ensures r != BADADDR ==> regs.Some? && 0x10200 < r as int && r as int == regs.value[regnum] as int
  {
    if regs.None? then BADADDR
    else if regs.value[regnum] < 0x1_0000_0000 && regs.value[regnum] > 0x10200 then regs.value[regnum] as int as Addr
    else BADADDR
  }
}
