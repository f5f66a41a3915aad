/** The optional value used wherever debug.cpp takes an argument that may be null
    or a slot that may be empty. */
module Wrappers {
  datatype Option<T> = None | Some(value: T)
}

/** Machine-level value types of the model: bytes, the 32-bit addresses of the
    PowerPC target, which the model also takes as the width of the host's
    `ea_t`, and the 4-byte
    instruction words that breakpoints patch. */
module Words {

  newtype U8 = x: int | 0 <= x < 0x100
  newtype U32 = x: int | 0 <= x < 0x1_0000_0000
  newtype U64 = x: int | 0 <= x < 0x1_0000_0000_0000_0000

  type Byte = U8
  type Addr = U32

  /** An instruction word as four bytes in target (big-endian) order. */
  type Word = w: seq<Byte> | |w| == 4 witness [0, 0, 0, 0]

  /** The trap instruction written over a patched word (debug.cpp:89). */
  const TRAP: Word := [0x7f, 0xe0, 0x00, 0x08]

  /** The word a default-constructed shadow entry holds. */
  const ZERO: Word := [0, 0, 0, 0]

  /** The host's "invalid address". */
  const BADADDR: Addr := 0xFFFF_FFFF

  /** `a + b` on the 32-bit address type: the sum when it fits, and the sum
      less 2^32 when it carries out of bit 31. */
  function Add32(a: Addr, b: nat): (r: Addr)
    ensures a as int + b < 0x1_0000_0000 ==> r as int == a as int + b
    ensures 0x1_0000_0000 <= a as int + b < 0x2_0000_0000 ==> r as int == a as int + b - 0x1_0000_0000
  {
    ((a as int + b) % 0x1_0000_0000) as Addr
  }

  /** The next word after the last one of the address space is address 0. */
  lemma NextWordWraps()
    ensures Add32(0xFFFF_FFFC, 4) == 0
    ensures Add32(0xFFFF_FFF8, 4) == 0xFFFF_FFFC
  {
  }

  function Pow2(n: nat): (r: nat)
    ensures r > 0
  {
    if n == 0 then 1 else 2 * Pow2(n - 1)
  }

  lemma {:induction false} Pow2Add(m: nat, n: nat)
    ensures Pow2(m + n) == Pow2(m) * Pow2(n)
    decreases m
  {
    if m > 0 {
      Pow2Add(m - 1, n);
    }
  }

  lemma Pow2Is32Bits()
    ensures Pow2(32) == 0x1_0000_0000
  {
    assert Pow2(8) == 0x100;
    Pow2Add(8, 8);
    Pow2Add(16, 16);
  }

  /** Bitwise or of the low `n` bits of `a` and `b`, bit by bit from the
      least significant. */
  function OrBits(a: nat, b: nat, n: nat): nat
  {
    if n == 0 then 0
    else 2 * OrBits(a / 2, b / 2, n - 1) + (if a % 2 == 1 || b % 2 == 1 then 1 else 0)
  }

  lemma {:induction false} OrBitsBound(a: nat, b: nat, n: nat)
    ensures OrBits(a, b, n) < Pow2(n)
    decreases n
  {
    if n > 0 {
      OrBitsBound(a / 2, b / 2, n - 1);
    }
  }

  /** Bitwise or of two 32-bit values, as the DABR register values are built. */
  function Or32(a: U32, b: U32): U32 {
    OrBitsBound(a as nat, b as nat, 32);
    Pow2Is32Bits();
    OrBits(a as nat, b as nat, 32) as U32
  }

  /** The low 32 bits of a 64-bit value: the truncation a `uint64` to `uint32`/`ea_t`
      assignment performs. */
  function Low32(x: bv64): U32 {
    (x & 0xFFFF_FFFF) as int as U32
  }

  /** A 32-bit pattern read as a two's-complement `int`. */
  function Signed32(x: U32): int {
    if x < 0x8000_0000 then x as int else x as int - 0x1_0000_0000
  }
}
