// 64-bit and 32-bit machine words as bounded integers, with the wrap-around
// that the C++ unsigned types perform written out.
module Words {

  const TWO31: int := 0x8000_0000
  const TWO32: int := 0x1_0000_0000
  const TWO63: int := 0x8000_0000_0000_0000
  const TWO64: int := 0x1_0000_0000_0000_0000

  type Word = x: int | 0 <= x < TWO64
  type U32 = x: int | 0 <= x < TWO32
  type Byte = x: int | 0 <= x < 256

  datatype Option<T> = None | Some(value: T)

  function Pow2(n: nat): (r: int)
    ensures r >= 1
  {
    if n == 0 then 1 else 2 * Pow2(n - 1)
  }

  lemma {:induction false} Pow2Add(a: nat, b: nat)
    ensures Pow2(a + b) == Pow2(a) * Pow2(b)
  {
    if a > 0 {
      Pow2Add(a - 1, b);
      assert Pow2(a + b) == 2 * Pow2((a - 1) + b);
    }
  }

  function Add(a: Word, b: Word): Word { (a + b) % TWO64 }

  function Sub(a: Word, b: Word): Word { (a - b) % TWO64 }

  function Neg(a: Word): Word { (0 - a) % TWO64 }

  function Mul(a: Word, b: Word): Word { (a * b) % TWO64 }

  function MulHigh(a: Word, b: Word): Word { (a * b / TWO64) % TWO64 }

  // The two's-complement reading of a word.
  function Signed(a: Word): int { if a < TWO63 then a else a - TWO64 }

  // Division by a positive number rounds down, as the arithmetic shift of the
  // 128-bit product does.
  function SignedMulHigh(a: Word, b: Word): Word { (Signed(a) * Signed(b) / TWO64) % TWO64 }

  function SignExtend(x: U32): Word { if x < TWO31 then x else x + TWO64 - TWO32 }

  function Shl(a: Word, k: nat): Word { (a * Pow2(k)) % TWO64 }

  function Ror(a: Word, k: nat): Word { (a / Pow2(k % 64) + a * Pow2(64 - k % 64)) % TWO64 }

  function Rol(a: Word, k: nat): Word { Ror(a, 64 - k % 64) }

  function XorBits(a: nat, b: nat, n: nat): (r: nat)
    ensures r < Pow2(n)
  {
    if n == 0 then 0 else 2 * XorBits(a / 2, b / 2, n - 1) + (a % 2 + b % 2) % 2
  }

  function Xor(a: Word, b: Word): Word { XorBits(a, b, 64) % TWO64 }

  function Bit(x: nat, k: nat): nat { x / Pow2(k) % 2 }

  function SetBit(x: Word, k: nat): Word { (if Bit(x, k) == 1 then x else x + Pow2(k)) % TWO64 }

  function ClearBit(x: Word, k: nat): Word { (if Bit(x, k) == 0 then x else x - Pow2(k)) % TWO64 }
}
