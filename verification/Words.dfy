/**
 64-bit machine words as natural numbers: powers of two, bitwise operators by their binary
 digits, and the masking and sign-extension helpers both operand evaluators use.
 */
module Words {
  const TWO64 := 0x1_0000_0000_0000_0000
  const TWO63 := 0x8000_0000_0000_0000

  datatype Option<+T> = None | Some(value: T)

  function Pow2(n: nat): (p: nat)
    ensures p > 0
  { if n == 0 then 1 else 2 * Pow2(n - 1) }

  function BitAnd(a: nat, b: nat): nat {
    if a == 0 then 0 else (if a % 2 == 1 && b % 2 == 1 then 1 else 0) + 2 * BitAnd(a / 2, b / 2)
  }

  function BitOr(a: nat, b: nat): nat
    decreases a + b
  {
    if a + b == 0 then 0 else (if a % 2 == 1 || b % 2 == 1 then 1 else 0) + 2 * BitOr(a / 2, b / 2)
  }

  function BitXor(a: nat, b: nat): nat
    decreases a + b
  {
    if a + b == 0 then 0 else (if a % 2 != b % 2 then 1 else 0) + 2 * BitXor(a / 2, b / 2)
  }

  // x << n, x >> n and the arithmetic x >> n, one position at a time.
  function Shl(x: nat, n: nat): nat
    decreases n
  { if n == 0 then x % TWO64 else Shl(2 * x, n - 1) }

  function Shr(x: nat, n: nat): nat
    decreases n
  { if n == 0 then x else Shr(x / 2, n - 1) }

  function Sar(x: int, n: nat): int
    decreases n
  { if n == 0 then x else Sar(x / 2, n - 1) }

  // The int64_t value of a 64-bit pattern.
  function Signed(w: int): int { if w < TWO63 then w else w - TWO64 }

  // Mask off everything above the low `bits` bits.
  function MaskToBits(val: nat, bits: nat): nat {
    if bits == 0 then 0 else if bits >= 64 then val else BitAnd(val, Pow2(bits) - 1)
  }

  // Sign-extend the low `bits` bits out to 64 bits.
  function SignExtend(val: nat, bits: nat): nat {
    if bits == 0 || bits >= 64 then val
    else (BitXor(MaskToBits(val, bits), Pow2(bits - 1)) - Pow2(bits - 1)) % TWO64
  }
}
