/**
 What the operand evaluators compute, in ordinary arithmetic: the bitwise and shifting code of the
 shift-register operand against shifts and rotations on N-bit numbers (`ShiftReg` and `ExtendReg`
 in chapter J1 of the Arm ARM, DDI 0487), and the branching address code against one sum.
 */
module OperandArithmetic {
  import opened Words
  import opened Division
  import opened Operands

  // ---- powers of two ----

  lemma {:induction false} Pow2Add(a: nat, b: nat)
    ensures Pow2(a + b) == Pow2(a) * Pow2(b)
  {
    if a != 0 { Pow2Add(a - 1, b); }
  }

  lemma {:induction false} Pow2Monotone(a: nat, b: nat)
    requires a <= b
    ensures Pow2(a) <= Pow2(b)
  {
    if a < b { Pow2Monotone(a, b - 1); }
  }

  lemma Pow2Values()
    ensures Pow2(32) == 0x1_0000_0000 && Pow2(64) == TWO64 && Pow2(63) == TWO63 && Pow2(31) == 0x8000_0000
  {
    assert Pow2(8) == 256;
    Pow2Add(8, 8);
    Pow2Add(16, 16);
    Pow2Add(32, 32);
  }

  // ---- bitwise operators as arithmetic ----

  lemma HalveMod(v: nat, m: nat)
    requires 0 < m
    ensures v % (2 * m) == v % 2 + 2 * ((v / 2) % m) && v / (2 * m) == (v / 2) / m
  {
    var q, r := (v / 2) / m, (v / 2) % m;
    assert v == 2 * (q * m + r) + v % 2;
    assert 2 * (q * m) == q * (2 * m);
    DivModUnique(v, 2 * m, q, 2 * r + v % 2);
  }

  lemma {:induction false} AndMaskIsMod(v: nat, k: nat)
    ensures BitAnd(v, Pow2(k) - 1) == v % Pow2(k)
  {
    if k == 0 {
      AndZero(v);
    } else {
      HalveMod(v, Pow2(k - 1));
      AndMaskIsMod(v / 2, k - 1);
      assert (Pow2(k) - 1) % 2 == 1 && (Pow2(k) - 1) / 2 == Pow2(k - 1) - 1;
      if v == 0 { assert 0 % Pow2(k) == 0; }
    }
  }

  lemma {:induction false} AndZero(v: nat)
    ensures BitAnd(v, 0) == 0
  {
    if v != 0 { AndZero(v / 2); }
  }

  // MaskToBits keeps a word modulo a power of two.
  lemma MaskIsMod(v: nat, bits: nat)
    requires v < TWO64
    ensures MaskToBits(v, bits) == v % Pow2(if bits < 64 then bits else 64)
  {
    Pow2Values();
    if bits < 64 { AndMaskIsMod(v, bits); }
  }

  // Disjoint bits: or is addition.
  lemma {:induction false} OrIsAdd(a: nat, b: nat, k: nat)
    requires b < Pow2(k)
    ensures BitOr(a * Pow2(k), b) == a * Pow2(k) + b
    decreases k
  {
    if k == 0 {
      OrZero(a);
    } else {
      assert a * Pow2(k) == 2 * (a * Pow2(k - 1));
      OrIsAdd(a, b / 2, k - 1);
      OrEven(a * Pow2(k - 1), b);
    }
  }

  // One step of or with an even number.
  lemma OrEven(h: nat, b: nat)
    requires BitOr(h, b / 2) == h + b / 2
    ensures BitOr(2 * h, b) == 2 * h + b
  {
    Halves(h, b);
    OrUnfold(2 * h, b, h, b / 2, b % 2);
  }

  lemma Halves(h: nat, b: nat)
    ensures (2 * h) % 2 == 0 && (2 * h) / 2 == h && b == 2 * (b / 2) + b % 2
  {
  }

  lemma OrUnfold(x: nat, b: nat, h: nat, c: nat, d: nat)
    requires x % 2 == 0 && x / 2 == h && x == 2 * h && b / 2 == c && b % 2 == d && b == 2 * c + d
    requires BitOr(h, c) == h + c
    ensures BitOr(x, b) == x + b
  {
  }

  lemma {:induction false} OrZero(a: nat)
    ensures BitOr(a, 0) == a
  {
    if a != 0 { OrZero(a / 2); }
  }

  lemma {:induction false} OrCommutes(a: nat, b: nat)
    ensures BitOr(a, b) == BitOr(b, a)
    decreases a + b
  {
    if a + b != 0 { OrCommutes(a / 2, b / 2); }
  }

  lemma {:induction false} XorZero(a: nat)
    ensures BitXor(a, 0) == a
  {
    if a != 0 { XorZero(a / 2); }
  }

  // Flipping the top bit of a (k+1)-bit number.
  lemma {:induction false} XorTop(v: nat, k: nat)
    requires v < 2 * Pow2(k)
    ensures BitXor(v, Pow2(k)) == if v < Pow2(k) then v + Pow2(k) else v - Pow2(k)
    decreases k
  {
    if k == 0 {
      assert BitXor(0, 1) == 1 + 2 * BitXor(0, 0) && BitXor(1, 1) == 0 + 2 * BitXor(0, 0);
    } else {
      XorTop(v / 2, k - 1);
      assert Pow2(k) % 2 == 0 && Pow2(k) / 2 == Pow2(k - 1);
    }
  }

  // The signed value of an n-bit pattern.
  function SignedN(x: int, n: nat): int
    requires n > 0
  { if x < Pow2(n - 1) then x else x - Pow2(n) }

  lemma SignExtendNarrow(v: nat, b: nat, x: nat)
    requires 0 < b < 64 && x == MaskToBits(v, b) && x < Pow2(b)
    ensures SignExtend(v, b) == SignedN(x, b) % TWO64
  {
    XorTop(x, b - 1);
    assert BitXor(x, Pow2(b - 1)) - Pow2(b - 1) == SignedN(x, b);
  }

  lemma SignExtendIsSigned(v: nat, b: nat)
    requires v < TWO64 && 0 < b <= 64
    ensures SignExtend(v, b) == SignedN(v % Pow2(b), b) % TWO64
  {
    MaskIsMod(v, b);
    if b < 64 {
      SignExtendNarrow(v, b, v % Pow2(b));
    } else {
      Pow2Values();
      TopWord(v);
    }
  }

  lemma TopWord(v: nat)
    requires v < TWO64
    ensures v % TWO64 == v && (v - TWO64) % TWO64 == v
  {
  }

  lemma {:induction false} ShlIsMul(x: nat, n: nat)
    ensures Shl(x, n) == (x * Pow2(n)) % TWO64
    decreases n
  {
    if n != 0 {
      ShlIsMul(2 * x, n - 1);
      assert 2 * x * Pow2(n - 1) == x * Pow2(n);
    }
  }

  lemma {:induction false} ShrIsDiv(x: nat, n: nat)
    ensures Shr(x, n) == x / Pow2(n)
    decreases n
  {
    if n != 0 {
      ShrIsDiv(x / 2, n - 1);
      HalveMod(x, Pow2(n - 1));
    }
  }

  lemma {:induction false} SarIsDiv(x: int, n: nat)
    ensures Sar(x, n) == x / Pow2(n)
    decreases n
  {
    if n != 0 {
      SarIsDiv(x / 2, n - 1);
      var m := Pow2(n - 1);
      var q, r := (x / 2) / m, (x / 2) % m;
      assert x == 2 * (q * m + r) + x % 2;
      assert 2 * (q * m) == q * (2 * m);
      DivModUnique(x, 2 * m, q, 2 * r + x % 2);
    }
  }

  // ---- the shift-register operand ----

  // Mathematical shifts and rotations of an n-bit number x by s < n places.
  function Shifted(shift: Shift, x: nat, s: nat, n: nat): int
    requires s < n
  {
    match shift
    case NoShift => x
    case LeftWithZeroes => Lsl(x, s, n)
    case LeftWithOnes => LslOnes(x, s, n)
    case UnsignedRight => Lsr(x, s)
    case SignedRight => Asr(x, s, n)
    case LeftAround => Rol(x, s, n)
    case RightAround => Ror(x, s, n)
  }

  function Lsl(x: nat, s: nat, n: nat): int { (x * Pow2(s)) % Pow2(n) }

  function LslOnes(x: nat, s: nat, n: nat): int { (x * Pow2(s) + Pow2(s) - 1) % Pow2(n) }

  function Lsr(x: nat, s: nat): int { x / Pow2(s) }

  function Asr(x: nat, s: nat, n: nat): int
    requires 0 < n
  { (SignedN(x, n) / Pow2(s)) % Pow2(n) }

  function Rol(x: nat, s: nat, n: nat): int
    requires s <= n
  { (x * Pow2(s)) % Pow2(n) + x / Pow2(n - s) }

  function Ror(x: nat, s: nat, n: nat): int
    requires s <= n
  { x / Pow2(s) + (x % Pow2(s)) * Pow2(n - s) }

  // The final masks of a 32-bit result are no-ops on a reduced value.
  lemma MaskSmall(x: nat, n: nat)
    requires n == 32 || n == 64
    requires x < Pow2(n)
    ensures MaskToBits(x, n) == x && x < TWO64
  {
    Pow2Values();
    MaskIsMod(x, n);
  }

  // Truncating a 64-bit result to n bits is reduction modulo 2^n.
  lemma MaskWord(y: int, n: nat)
    requires n == 32 || n == 64
    ensures MaskToBits(y % TWO64, n) == y % Pow2(n)
  {
    Pow2Values();
    MaskIsMod(y % TWO64, n);
    if n == 32 { ModTwice(y, 0x1_0000_0000, 0x1_0000_0000); }
  }

  lemma ShiftLeft(x: nat, s: nat, n: nat)
    requires (n == 32 || n == 64) && s < n && x < Pow2(n)
    ensures DoShift(x, n, LeftWithZeroes, s) == Some(Shifted(LeftWithZeroes, x, s, n))
    ensures 0 <= Shifted(LeftWithZeroes, x, s, n) < Pow2(n)
  {
    ShlIsMul(x, s);
    MaskWord(x * Pow2(s), n);
  }

  lemma ShiftLeftOnes(x: nat, s: nat, n: nat)
    requires (n == 32 || n == 64) && s < n && x < Pow2(n)
    ensures DoShift(x, n, LeftWithOnes, s) == Some(Shifted(LeftWithOnes, x, s, n))
    ensures 0 <= Shifted(LeftWithOnes, x, s, n) < Pow2(n)
  {
    ShlIsMul(x, s);
    Pow2Values();
    Pow2Add(s, 64 - s);
    // the product modulo 2^64 is still a multiple of 2^s
    var h := x % Pow2(64 - s);
    ScaleMod(x, Pow2(s), Pow2(64 - s));
    OrIsAdd(h, Pow2(s) - 1, s);
    var y := x * Pow2(s) + Pow2(s) - 1;
    ScaleModTop(x, Pow2(s), Pow2(64 - s));
    MaskWord(y, n);
  }

  // (x * a) mod (a * b) is a multiple of a.
  lemma ScaleMod(x: nat, a: nat, b: nat)
    requires 0 < a && 0 < b
    ensures (x * a) % (a * b) == (x % b) * a
  {
    assert x == (x / b) * b + x % b;
    assert x * a == (x / b) * (a * b) + (x % b) * a by {
      assert ((x / b) * b + x % b) * a == (x / b) * b * a + (x % b) * a;
      assert (x / b) * b * a == (x / b) * (a * b);
    }
    assert (x % b) * a < a * b by { MulLess(x % b, b, a); }
    DivModUnique(x * a, a * b, x / b, (x % b) * a);
  }

  lemma ScaleModTop(x: nat, a: nat, b: nat)
    requires 0 < a && 0 < b
    ensures (x * a + a - 1) % (a * b) == (x % b) * a + a - 1
  {
    assert x == (x / b) * b + x % b;
    assert x * a == (x / b) * (a * b) + (x % b) * a by {
      assert ((x / b) * b + x % b) * a == (x / b) * b * a + (x % b) * a;
      assert (x / b) * b * a == (x / b) * (a * b);
    }
    assert (x % b + 1) * a <= b * a by { MulLess(x % b, b, a); }
    assert (x % b) * a + a == (x % b + 1) * a;
    DivModUnique(x * a + a - 1, a * b, x / b, (x % b) * a + a - 1);
  }

  lemma MulLess(x: nat, b: nat, a: nat)
    requires x < b && 0 < a
    ensures x * a < b * a && (x + 1) * a <= b * a
  {
  }

  lemma ShiftRight(x: nat, s: nat, n: nat)
    requires (n == 32 || n == 64) && s < n && x < Pow2(n)
    ensures DoShift(x, n, UnsignedRight, s) == Some(Shifted(UnsignedRight, x, s, n))
    ensures 0 <= Shifted(UnsignedRight, x, s, n) < Pow2(n)
  {
    ShrIsDiv(x, s);
    DivShrinks(x, Pow2(s));
    MaskSmall(x / Pow2(s), n);
  }

  lemma MulOrder(p: int, q: int, a: int)
    requires 0 < a
    ensures p * a < q * a <==> p < q
  {
    assert (q - p) * a == q * a - p * a;
    if p < q { MulAtLeast(a, q - p); } else { MulNonNegative(p - q, a); }
  }

  lemma MulNonNegative(x: nat, a: nat)
    ensures x * a >= 0
  {
  }

  lemma DivBound(x: nat, a: nat, b: nat)
    requires 0 < a
    ensures 0 <= x / a && (x < b * a ==> x / a < b)
  {
    var q := x / a;
    assert x == q * a + x % a;
    MulOrder(q, b, a);
    MulOrder(-1, q, a);
  }

  lemma DivShrinks(x: nat, m: nat)
    requires 0 < m
    ensures 0 <= x / m <= x
  {
    MulAtLeast(x, m);
    assert x < (x + 1) * m;
    DivBound(x, m, x + 1);
  }

  lemma {:induction false} MulAtLeast(x: nat, m: nat)
    requires 0 < m
    ensures x * m >= x
  {
    if x > 0 { MulAtLeast(x - 1, m); assert x * m == (x - 1) * m + m; }
  }

  lemma ShiftRightSigned(x: nat, s: nat, n: nat)
    requires (n == 32 || n == 64) && s < n && x < Pow2(n)
    ensures DoShift(x, n, SignedRight, s) == Some(Shifted(SignedRight, x, s, n))
    ensures 0 <= Shifted(SignedRight, x, s, n) < Pow2(n)
  {
    SignedInput(x, n);
    SarIsDiv(SignedN(x, n), s);
    MaskWord(SignedN(x, n) / Pow2(s), n);
  }

  lemma SignedInput(x: nat, n: nat)
    requires (n == 32 || n == 64) && x < Pow2(n)
    ensures Signed(SignExtend(x, n)) == SignedN(x, n)
  {
    Pow2Values();
    SignExtendIsSigned(x, n);
    DivModUnique(x, Pow2(n), 0, x);
    SignedRoundTrip(SignedN(x, n));
  }

  lemma SignedRoundTrip(y: int)
    requires -TWO63 <= y < TWO63
    ensures Signed(y % TWO64) == y
  {
  }

  lemma Pow2Small()
    ensures Pow2(5) == 32 && Pow2(6) == 64
  {
  }

  lemma NegateMod(s: nat, n: nat)
    requires (n == 32 || n == 64) && s < n
    ensures Negate(s) % n == if s == 0 then 0 else n - s
  {
  }

  // (~s + 1) & (n - 1) is n - s, or zero for s = 0.
  lemma RotateAmount(s: nat, n: nat)
    requires (n == 32 || n == 64) && s < n
    ensures BitAnd(Negate(s), (n - 1) % TWO64) == (if s == 0 then 0 else n - s)
  {
    NegateMod(s, n);
    AndWidth(Negate(s), n);
    assert (n - 1) % TWO64 == n - 1;
  }

  lemma AndWidth(v: nat, n: nat)
    requires n == 32 || n == 64
    ensures BitAnd(v, n - 1) == v % n
  {
    Pow2Small();
    if n == 32 { AndMaskIsMod(v, 5); } else { AndMaskIsMod(v, 6); }
  }

  // Two numbers with the same low part scale to the same value modulo p * q.
  lemma SameLowPart(x: nat, h: nat, l: nat, p: nat, q: nat, m: nat)
    requires 0 < p && 0 < q && l < p && h % q == x % q && m == p * q
    ensures (h * p + l) % m == (x * p) % m + l
  {
    ScaleAdd(h, l, p, q);
    ScaleMod(x, p, q);
  }

  // The two halves of a rotation occupy different bits: or'ing them and masking to n bits adds the
  // low half to the product modulo 2^n.
  lemma RotateHalves(x: nat, s: nat, n: nat, l: nat)
    requires (n == 32 || n == 64) && 0 < s < n && l < Pow2(s)
    ensures MaskToBits(BitOr(l, Shl(x, s)), n) == (x * Pow2(s)) % Pow2(n) + l
    ensures 0 <= (x * Pow2(s)) % Pow2(n) + l < Pow2(n)
  {
    var h := OrHalves(x, s, n, l);
    LowPartModN(x, h, l, s, n);
    MaskHalves(h * Pow2(s) + l, n, (x * Pow2(s)) % Pow2(n) + l);
  }

  lemma MaskHalves(y: nat, n: nat, r: int)
    requires (n == 32 || n == 64) && y < TWO64 && y % Pow2(n) == r
    ensures MaskToBits(y, n) == r && 0 <= r < Pow2(n)
  {
    MaskIsMod(y, n);
  }

  lemma LowPartModN(x: nat, h: nat, l: nat, s: nat, n: nat)
    requires s <= n && l < Pow2(s) && h % Pow2(n - s) == x % Pow2(n - s)
    ensures (h * Pow2(s) + l) % Pow2(n) == (x * Pow2(s)) % Pow2(n) + l
  {
    Pow2Add(s, n - s);
    SameLowPart(x, h, l, Pow2(s), Pow2(n - s), Pow2(n));
  }

  lemma OrHalves(x: nat, s: nat, n: nat, l: nat) returns (h: nat)
    requires (n == 32 || n == 64) && s <= n && l < Pow2(s)
    ensures BitOr(l, Shl(x, s)) == h * Pow2(s) + l && h * Pow2(s) + l < TWO64
    ensures h % Pow2(n - s) == x % Pow2(n - s)
  {
    h := x % Pow2(64 - s);
    ShlHalf(x, s, h);
    OrIsAdd(h, l, s);
    OrCommutes(l, h * Pow2(s));
    HighPart(x, s, n);
  }

  lemma ShlHalf(x: nat, s: nat, h: nat)
    requires s <= 64 && h == x % Pow2(64 - s)
    ensures Shl(x, s) == h * Pow2(s) && h * Pow2(s) + Pow2(s) <= TWO64
  {
    ShlIsMul(x, s);
    Pow2Values();
    Pow2Add(s, 64 - s);
    ScaledHalf(x, Pow2(s), Pow2(64 - s), h, TWO64);
  }

  lemma ScaledHalf(x: nat, p: nat, q: nat, h: nat, m: nat)
    requires 0 < p && 0 < q && m == p * q && h == x % q
    ensures (x * p) % m == h * p && h * p + p <= m
  {
    ScaleMod(x, p, q);
    MulLess(h, q, p);
    assert (h + 1) * p == h * p + p && q * p == p * q;
  }

  lemma HighPart(x: nat, s: nat, n: nat)
    requires (n == 32 || n == 64) && s <= n
    ensures (x % Pow2(64 - s)) % Pow2(n - s) == x % Pow2(n - s)
  {
    Pow2Add(n - s, 64 - n);
    ModTwice(x, Pow2(n - s), Pow2(64 - n));
  }

  lemma HighBits(x: nat, s: nat, n: nat)
    requires 0 < s < n && x < Pow2(n)
    ensures Shr(x, n - s) == x / Pow2(n - s) && Shr(x, n - s) < Pow2(s)
  {
    ShrIsDiv(x, n - s);
    Pow2Add(s, n - s);
    DivBound(x, Pow2(n - s), Pow2(s));
  }

  lemma RotateLeft(x: nat, s: nat, n: nat)
    requires (n == 32 || n == 64) && 0 < s < n && x < Pow2(n)
    ensures RotateLeftCode(x, n, s) == Some(Rol(x, s, n)) && 0 <= Rol(x, s, n) < Pow2(n)
  {
    RotateCodes(x, s, n);
    RotatedRol(x, s, n);
  }

  lemma RotatedRol(x: nat, s: nat, n: nat)
    requires (n == 32 || n == 64) && 0 < s < n && x < Pow2(n)
    ensures MaskToBits(BitOr(Shr(x, n - s), Shl(x, s)), n) == Rol(x, s, n) && 0 <= Rol(x, s, n) < Pow2(n)
  {
    RotatedLeft(x, s, n);
    RolIs(x, s, n);
  }

  lemma RotatedRor(x: nat, s: nat, n: nat)
    requires (n == 32 || n == 64) && 0 < s < n && x < Pow2(n)
    ensures MaskToBits(BitOr(Shr(x, s), Shl(x, n - s)), n) == Ror(x, s, n) && 0 <= Ror(x, s, n) < Pow2(n)
  {
    RotatedRight(x, s, n);
    RolIs(x, s, n);
  }

  lemma RolIs(x: nat, s: nat, n: nat)
    requires s <= n
    ensures Rol(x, s, n) == (x * Pow2(s)) % Pow2(n) + x / Pow2(n - s)
    ensures Ror(x, s, n) == x / Pow2(s) + (x % Pow2(s)) * Pow2(n - s)
  {
  }

  lemma RotateCodes(x: nat, s: nat, n: nat)
    requires (n == 32 || n == 64) && 0 < s < n
    ensures RotateLeftCode(x, n, s) == Some(MaskToBits(BitOr(Shr(x, n - s), Shl(x, s)), n))
    ensures RotateRightCode(x, n, s) == Some(MaskToBits(BitOr(Shr(x, s), Shl(x, n - s)), n))
  {
    RotateAmount(s, n);
    CodesAt(x, s, n, n - s);
  }

  lemma RotatedLeft(x: nat, s: nat, n: nat)
    requires (n == 32 || n == 64) && 0 < s < n && x < Pow2(n)
    ensures MaskToBits(BitOr(Shr(x, n - s), Shl(x, s)), n) == (x * Pow2(s)) % Pow2(n) + x / Pow2(n - s)
    ensures 0 <= (x * Pow2(s)) % Pow2(n) + x / Pow2(n - s) < Pow2(n)
  {
    HighBits(x, s, n);
    RotateHalves(x, s, n, Shr(x, n - s));
  }

  lemma RotateRight(x: nat, s: nat, n: nat)
    requires (n == 32 || n == 64) && 0 < s < n && x < Pow2(n)
    ensures RotateRightCode(x, n, s) == Some(Ror(x, s, n)) && 0 <= Ror(x, s, n) < Pow2(n)
  {
    RotateCodes(x, s, n);
    RotatedRor(x, s, n);
  }

  lemma RotatedRight(x: nat, s: nat, n: nat)
    requires (n == 32 || n == 64) && 0 < s < n && x < Pow2(n)
    ensures MaskToBits(BitOr(Shr(x, s), Shl(x, n - s)), n) == x / Pow2(s) + (x % Pow2(s)) * Pow2(n - s)
    ensures 0 <= x / Pow2(s) + (x % Pow2(s)) * Pow2(n - s) < Pow2(n)
  {
    HighBits(x, n - s, n);
    RotateHalves(x, n - s, n, Shr(x, s));
    LowBitsUp(x, s, n);
  }

  // Rotating right moves the low s bits to the top.
  lemma LowBitsUp(x: nat, s: nat, n: nat)
    requires s <= n
    ensures (x * Pow2(n - s)) % Pow2(n) == (x % Pow2(s)) * Pow2(n - s)
  {
    Pow2Add(n - s, s);
    ScaleMod(x, Pow2(n - s), Pow2(s));
  }

  lemma RotateZero(x: nat, s: nat, n: nat)
    requires (n == 32 || n == 64) && s == 0 && x < Pow2(n)
    ensures RotateLeftCode(x, n, s) == Some(x) && RotateRightCode(x, n, s) == Some(x)
  {
    FitsWord(x, n, n);
    RotateAmount(s, n);
    CodesAt(x, s, n, s);
    ZeroShifts(x, s);
    OrSelf(x);
    MaskSmall(x, n);
  }

  lemma CodesAt(x: nat, s: nat, n: nat, m: nat)
    requires n > 0 && m < 64 && BitAnd(Negate(s), (n - 1) % TWO64) == m
    ensures RotateLeftCode(x, n, s) == Some(MaskToBits(BitOr(Shr(x, m), Shl(x, s)), n))
    ensures RotateRightCode(x, n, s) == Some(MaskToBits(BitOr(Shr(x, s), Shl(x, m)), n))
  {
  }

  lemma ZeroShifts(x: nat, s: nat)
    requires x < TWO64 && s == 0
    ensures Shl(x, s) == x && Shr(x, s) == x
  {
  }

  lemma RotatedZero(x: nat, s: nat, n: nat)
    requires s == 0 && x < Pow2(n)
    ensures Rol(x, s, n) == x && Ror(x, s, n) == x
  {
    DivModUnique(x, Pow2(n), 0, x);
    assert Pow2(s) == 1;
  }

  lemma {:induction false} OrSelf(x: nat)
    ensures BitOr(x, x) == x
  {
    if x != 0 { OrSelf(x / 2); }
  }

  lemma DoShiftIsShifted(x: nat, s: nat, n: nat, shift: Shift)
    requires (n == 32 || n == 64) && s < n && x < Pow2(n)
    ensures ShiftsTo(x, s, n, shift)
  {
    match shift
    case NoShift =>
    case LeftWithZeroes => ShiftLeft(x, s, n);
    case LeftWithOnes => ShiftLeftOnes(x, s, n);
    case UnsignedRight => ShiftRight(x, s, n);
    case SignedRight => ShiftRightSigned(x, s, n);
    case LeftAround => RotatesLeftTo(x, s, n);
    case RightAround => RotatesRightTo(x, s, n);
  }

  // The code computes the mathematical shift, an n-bit number.
  ghost predicate ShiftsTo(x: nat, s: nat, n: nat, shift: Shift)
    requires 0 < n && s < n
  {
    DoShift(x, n, shift, s) == Some(Shifted(shift, x, s, n)) && 0 <= Shifted(shift, x, s, n) < Pow2(n)
  }

  lemma RotatesLeftTo(x: nat, s: nat, n: nat)
    requires (n == 32 || n == 64) && s < n && x < Pow2(n)
    ensures ShiftsTo(x, s, n, LeftAround)
  {
    DoRotate(x, s, n);
    if s == 0 { RotateZero(x, s, n); RotatedZero(x, s, n); } else { RotateLeft(x, s, n); }
  }

  lemma RotatesRightTo(x: nat, s: nat, n: nat)
    requires (n == 32 || n == 64) && s < n && x < Pow2(n)
    ensures ShiftsTo(x, s, n, RightAround)
  {
    DoRotate(x, s, n);
    if s == 0 { RotateZero(x, s, n); RotatedZero(x, s, n); } else { RotateRight(x, s, n); }
  }

  lemma DoRotate(x: nat, s: nat, n: nat)
    requires s < n && s < 64
    ensures DoShift(x, n, LeftAround, s) == RotateLeftCode(x, n, s) && Shifted(LeftAround, x, s, n) == Rol(x, s, n)
    ensures DoShift(x, n, RightAround, s) == RotateRightCode(x, n, s) && Shifted(RightAround, x, s, n) == Ror(x, s, n)
  {
  }

  lemma ScaleAdd(x: nat, l: nat, a: nat, b: nat)
    requires 0 < a && 0 < b && l < a
    ensures (x * a + l) % (a * b) == (x % b) * a + l
  {
    assert x == (x / b) * b + x % b;
    assert x * a == (x / b) * (a * b) + (x % b) * a by {
      assert ((x / b) * b + x % b) * a == (x / b) * b * a + (x % b) * a;
      assert (x / b) * b * a == (x / b) * (a * b);
    }
    assert (x % b + 1) * a <= b * a by { MulLess(x % b, b, a); }
    assert (x % b) * a + a == (x % b + 1) * a;
    DivModUnique(x * a + l, a * b, x / b, (x % b) * a + l);
  }

  // The whole operand without an extension: the low regSize bits, shifted on n bits.
  lemma ShiftRegisterExact(v: nat, regSize: nat, n: nat, shift: Shift, s: nat, e: nat)
    requires (n == 32 || n == 64) && regSize <= n && s < n && v < TWO64 && (regSize == n ==> v < Pow2(n))
    ensures ShiftValue(v, regSize, n, shift, NoExtend, s, e) == Some(Shifted(shift, v % Pow2(regSize), s, n))
  {
    var x := v % Pow2(regSize);
    MaskIsMod(v, regSize);
    Pow2Monotone(regSize, n);
    if regSize == n { DivModUnique(v, Pow2(n), 0, v); }
    DoShiftIsShifted(x, s, n, shift);
    MaskSmall(Shifted(shift, x, s, n), n);
  }

  // Extension of the low e bits, as an integer.
  function Extended(extend: Extend, x: int, e: nat): int {
    if extend == ExtendSigned && e > 0 then SignedN(x, e) else x
  }

  // An extension followed by a left shift (or none) is extend-then-shift modulo 2^n.
  lemma ExtendThenShift(v: nat, regSize: nat, n: nat, extend: Extend, shift: Shift, s: nat, e: nat)
    requires (n == 32 || n == 64) && regSize <= n && s < n && v < Pow2(regSize)
    requires extend != NoExtend && (shift == LeftWithZeroes || (shift == NoShift && s == 0))
    ensures ShiftValue(v, regSize, n, shift, extend, s, e)
         == Some((Extended(extend, v % Pow2(e), e) * Pow2(s)) % Pow2(n))
  {
    if e == 0 {
      ExtendNothing(v, regSize, n, extend, shift, s, e);
    } else if e <= regSize {
      ExtendNarrow(v, regSize, n, extend, shift, s, e);
    } else {
      ExtendWide(v, regSize, n, extend, shift, s, e);
    }
  }

  // A number with a zero sign bit is its own extension.
  lemma ExtendedSmall(v: nat, regSize: nat, extend: Extend, e: nat)
    requires regSize < e && v < Pow2(regSize)
    ensures v < Pow2(e - 1) && v % Pow2(e) == v && Extended(extend, v % Pow2(e), e) == v
  {
    Pow2Monotone(regSize, e - 1);
    DivModUnique(v, Pow2(e), 0, v);
  }

  lemma SignExtendSmall(v: nat, regSize: nat, e: nat)
    requires regSize < e && v < Pow2(regSize) && v < TWO64
    ensures SignExtend(v, e) == v
  {
    if e < 64 {
      ExtendedSmall(v, regSize, ExtendSigned, e);
      SignExtendIsSigned(v, e);
      TopWord(v);
    }
  }

  lemma MaskSelf(v: nat, bits: nat)
    requires v < Pow2(bits) && v < TWO64
    ensures MaskToBits(v, bits) == v
  {
    MaskIsMod(v, bits);
    if bits < 64 { DivModUnique(v, Pow2(bits), 0, v); } else { Pow2Values(); TopWord(v); }
  }

  // Extending more bits than the register has changes nothing.
  lemma WideExtract(v: nat, regSize: nat, n: nat, extend: Extend, shift: Shift, s: nat, e: nat)
    requires regSize < e && v < Pow2(regSize) && v < TWO64
    ensures ShiftValue(v, regSize, n, shift, extend, s, e) == ShiftValue(v, regSize, n, shift, NoExtend, s, e)
  {
    SignExtendSmall(v, regSize, e);
    MaskSelf(v, regSize);
  }

  lemma LeftShifted(x: nat, s: nat, n: nat, shift: Shift)
    requires s < n && x < Pow2(n) && (shift == LeftWithZeroes || (shift == NoShift && s == 0))
    ensures Shifted(shift, x, s, n) == (x * Pow2(s)) % Pow2(n)
  {
    if shift == NoShift {
      assert Pow2(0) == 1;
      DivModUnique(x, Pow2(n), 0, x);
    }
  }

  lemma ExtendWide(v: nat, regSize: nat, n: nat, extend: Extend, shift: Shift, s: nat, e: nat)
    requires (n == 32 || n == 64) && regSize <= n && regSize < e && s < n && v < Pow2(regSize)
    requires extend != NoExtend && (shift == LeftWithZeroes || (shift == NoShift && s == 0))
    ensures ShiftValue(v, regSize, n, shift, extend, s, e)
         == Some((Extended(extend, v % Pow2(e), e) * Pow2(s)) % Pow2(n))
  {
    FitsWord(v, regSize, n);
    ExtendedSmall(v, regSize, extend, e);
    WideExtract(v, regSize, n, extend, shift, s, e);
    PlainShift(v, regSize, n, shift, s, e);
  }

  // Extracting no bits gives zero.
  lemma ExtendNothing(v: nat, regSize: nat, n: nat, extend: Extend, shift: Shift, s: nat, e: nat)
    requires (n == 32 || n == 64) && regSize <= n && e == 0 && s < n && v < Pow2(regSize)
    requires extend != NoExtend && (shift == LeftWithZeroes || (shift == NoShift && s == 0))
    ensures ShiftValue(v, regSize, n, shift, extend, s, e)
         == Some((Extended(extend, v % Pow2(e), e) * Pow2(s)) % Pow2(n))
  {
    assert Pow2(e) == 1 && v % Pow2(e) == 0;
    PlainShift(0, regSize, n, shift, s, e);
    NoBits(v, regSize, n, extend, shift, s, e);
  }

  lemma NoBits(v: nat, regSize: nat, n: nat, extend: Extend, shift: Shift, s: nat, e: nat)
    requires e == 0 && n > 0 && v < Pow2(regSize) && extend != NoExtend
    ensures ShiftValue(v, regSize, n, shift, extend, s, e) == ShiftValue(0, regSize, n, shift, NoExtend, s, e)
  {
    assert regSize == 0 ==> v == 0;
    MaskSelf(0, regSize);
  }

  lemma FitsWord(v: nat, regSize: nat, n: nat)
    requires (n == 32 || n == 64) && regSize <= n && v < Pow2(regSize)
    ensures v < Pow2(n) && v < TWO64
  {
    Pow2Values();
    Pow2Monotone(regSize, n);
    Pow2Monotone(n, 64);
  }

  lemma PlainShift(v: nat, regSize: nat, n: nat, shift: Shift, s: nat, e: nat)
    requires (n == 32 || n == 64) && regSize <= n && s < n && v < Pow2(regSize) && v < TWO64 && v < Pow2(n)
    requires shift == LeftWithZeroes || (shift == NoShift && s == 0)
    ensures ShiftValue(v, regSize, n, shift, NoExtend, s, e) == Some((v * Pow2(s)) % Pow2(n))
  {
    ShiftRegisterExact(v, regSize, n, shift, s, e);
    DivModUnique(v, Pow2(regSize), 0, v);
    LeftShifted(v, s, n, shift);
  }

  lemma ExtendNarrow(v: nat, regSize: nat, n: nat, extend: Extend, shift: Shift, s: nat, e: nat)
    requires (n == 32 || n == 64) && 0 < e <= regSize <= n && s < n && v < Pow2(regSize)
    requires extend != NoExtend && (shift == LeftWithZeroes || (shift == NoShift && s == 0))
    ensures ShiftValue(v, regSize, n, shift, extend, s, e)
         == Some((Extended(extend, v % Pow2(e), e) * Pow2(s)) % Pow2(n))
  {
    var y := Extended(extend, v % Pow2(e), e);
    var r := ShiftInput(v % Pow2(e), n, extend, e);
    NarrowedRegister(v, regSize, n, e);
    ShiftInputValue(v % Pow2(e), n, extend, e);
    SameModN(r, y, s, n);
    if shift == LeftWithZeroes {
      MaskWord(r * Pow2(s), n);
      ShlIsMul(r, s);
      MaskSmall((y * Pow2(s)) % Pow2(n), n);
    } else {
      MaskIsMod(r, n);
      Pow2Values();
      assert Pow2(0) == 1;
    }
  }

  // The value DoShift receives, from the low e bits x of the register.
  function ShiftInput(x: nat, n: nat, extend: Extend, e: nat): nat {
    if n > e && extend == ExtendSigned then SignExtend(x, e) else x
  }

  lemma NarrowedRegister(v: nat, regSize: nat, n: nat, e: nat)
    requires (n == 32 || n == 64) && 0 < e <= regSize <= n && v < Pow2(regSize)
    ensures (if regSize > e then MaskToBits(v, e) else v) == v % Pow2(e) && v < TWO64
  {
    Pow2Values();
    Pow2Monotone(regSize, 64);
    MaskIsMod(v, e);
    if regSize == e { DivModUnique(v, Pow2(e), 0, v); }
  }

  lemma ShiftInputValue(x: nat, n: nat, extend: Extend, e: nat)
    requires (n == 32 || n == 64) && 0 < e <= n && x < Pow2(e) && extend != NoExtend
    ensures ShiftInput(x, n, extend, e) < TWO64
    ensures ShiftInput(x, n, extend, e) % Pow2(n) == Extended(extend, x, e) % Pow2(n)
  {
    Pow2Values();
    Pow2Monotone(e, 64);
    if extend == ExtendSigned {
      if n > e {
        DivModUnique(x, Pow2(e), 0, x);
        SignExtendIsSigned(x, e);
        WordModN(SignedN(x, e), n);
      } else if x >= Pow2(e - 1) {
        ModShift(x, -1, Pow2(n));
      }
    }
  }

  lemma WordModN(y: int, n: nat)
    requires n == 32 || n == 64
    ensures (y % TWO64) % Pow2(n) == y % Pow2(n)
  {
    Pow2Values();
    Pow2Add(n, 64 - n);
    ModTwice(y, Pow2(n), Pow2(64 - n));
  }

  lemma SameModN(a: int, b: int, s: nat, n: nat)
    requires a % Pow2(n) == b % Pow2(n)
    ensures (a * Pow2(s)) % Pow2(n) == (b * Pow2(s)) % Pow2(n)
  {
    ModMulCancel(a, Pow2(s), Pow2(n));
    ModMulCancel(b, Pow2(s), Pow2(n));
  }

  // ---- registers whose size is no whole number of bytes ----

  /**
   What is shifted after an extension, for a loaded value that may have bits beyond the register's
   size: the extracted bits, extended, unless nothing is cut off (all loaded bits when zero-extending
   into a wider operand, the register's own bits when nothing is extended).
   */
  function Extracted(extend: Extend, v: nat, regSize: nat, n: nat, e: nat): int {
    if regSize > e || (extend == ExtendSigned && e < n) then Extended(extend, v % Pow2(e), e)
    else if e < n then v
    else v % Pow2(regSize)
  }

  lemma ExtendAnyRegister(v: nat, regSize: nat, n: nat, extend: Extend, shift: Shift, s: nat, e: nat)
    requires (n == 32 || n == 64) && regSize <= n && s < n && v < Pow2(n) && (regSize == 0 ==> v == 0)
    requires extend != NoExtend && (shift == LeftWithZeroes || (shift == NoShift && s == 0))
    ensures ShiftValue(v, regSize, n, shift, extend, s, e)
         == Some((Extracted(extend, v, regSize, n, e) * Pow2(s)) % Pow2(n))
  {
    FitsWord(v, n, n);
    if regSize > e {
      CutDown(v, regSize, n, extend, shift, s, e);
      ExtendThenShift(v % Pow2(regSize), regSize, n, extend, shift, s, e);
    } else if e < n && extend == ExtendSigned {
      SignedOnly(v, regSize, n, shift, s, e);
      ModBelow(v, e);
      ExtendThenShift(v % Pow2(e), e, n, extend, shift, s, e);
    } else {
      NothingCut(v, regSize, n, extend, shift, s, e);
    }
  }

  lemma NothingCut(v: nat, regSize: nat, n: nat, extend: Extend, shift: Shift, s: nat, e: nat)
    requires (n == 32 || n == 64) && regSize <= n && regSize <= e && s < n && v < Pow2(n) && v < TWO64
    requires extend != NoExtend && (extend == ExtendSigned ==> n <= e)
    requires shift == LeftWithZeroes || (shift == NoShift && s == 0)
    ensures ShiftValue(v, regSize, n, shift, extend, s, e)
         == Some(((if e < n then v else v % Pow2(regSize)) * Pow2(s)) % Pow2(n))
  {
    var size := if e < n then n else regSize;
    assert ShiftValue(v, regSize, n, shift, extend, s, e) == ShiftValue(v, size, n, shift, NoExtend, s, e);
    CutShift(v, size, n, shift, s, e);
    if e < n { DivModUnique(v, Pow2(n), 0, v); }
  }

  lemma CutShift(v: nat, size: nat, n: nat, shift: Shift, s: nat, e: nat)
    requires (n == 32 || n == 64) && size <= n && s < n && v < Pow2(n) && v < TWO64
    requires shift == LeftWithZeroes || (shift == NoShift && s == 0)
    ensures ShiftValue(v, size, n, shift, NoExtend, s, e) == Some(((v % Pow2(size)) * Pow2(s)) % Pow2(n))
  {
    ShiftRegisterExact(v, size, n, shift, s, e);
    ModBelow(v, size);
    FitsWord(v % Pow2(size), size, n);
    LeftShifted(v % Pow2(size), s, n, shift);
  }

  // A remainder, and its own remainder.
  lemma ModBelow(v: nat, k: nat)
    ensures 0 <= v % Pow2(k) < Pow2(k) && (v % Pow2(k)) % Pow2(k) == v % Pow2(k)
  {
    DivModUnique(v % Pow2(k), Pow2(k), 0, v % Pow2(k));
  }

  // Cutting a register down to e bits forgets what lies beyond its size.
  lemma CutDown(v: nat, regSize: nat, n: nat, extend: Extend, shift: Shift, s: nat, e: nat)
    requires e < regSize <= 64 && v < TWO64 && extend != NoExtend
    ensures 0 <= v % Pow2(regSize) < Pow2(regSize) && (v % Pow2(regSize)) % Pow2(e) == v % Pow2(e)
    ensures ShiftValue(v, regSize, n, shift, extend, s, e)
         == ShiftValue(v % Pow2(regSize), regSize, n, shift, extend, s, e)
  {
    CutTwice(v, regSize, e);
    SameCut(v, v % Pow2(regSize), regSize, n, extend, shift, s, e);
  }

  lemma CutTwice(v: nat, regSize: nat, e: nat)
    requires e < regSize <= 64 && v < TWO64
    ensures 0 <= v % Pow2(regSize) < Pow2(regSize) && (v % Pow2(regSize)) % Pow2(e) == v % Pow2(e)
    ensures MaskToBits(v, e) == MaskToBits(v % Pow2(regSize), e)
  {
    ModBelow(v, regSize);
    ModSmaller(v, regSize, e);
    MaskIsMod(v, e);
    FitsWord(v % Pow2(regSize), regSize, 64);
    MaskIsMod(v % Pow2(regSize), e);
  }

  lemma ModSmaller(v: nat, k: nat, e: nat)
    requires e <= k
    ensures (v % Pow2(k)) % Pow2(e) == v % Pow2(e)
  {
    Pow2Add(e, k - e);
    ModTwice(v, Pow2(e), Pow2(k - e));
  }

  lemma SameCut(v: nat, w: nat, regSize: nat, n: nat, extend: Extend, shift: Shift, s: nat, e: nat)
    requires e < regSize && extend != NoExtend && MaskToBits(v, e) == MaskToBits(w, e)
    ensures ShiftValue(v, regSize, n, shift, extend, s, e) == ShiftValue(w, regSize, n, shift, extend, s, e)
  {
  }

  // Sign extension looks at the low e bits only.
  lemma SignedOnly(v: nat, regSize: nat, n: nat, shift: Shift, s: nat, e: nat)
    requires regSize <= e < n <= 64 && v < TWO64 && (regSize == 0 ==> v == 0)
    ensures v % Pow2(e) >= 0
    ensures ShiftValue(v, regSize, n, shift, ExtendSigned, s, e)
         == ShiftValue(v % Pow2(e), e, n, shift, ExtendSigned, s, e)
  {
    ModBelow(v, e);
    if e == 0 { assert Pow2(e) == 1 && v % Pow2(e) == 0; } else { SignedTwice(v, e); }
    SameSign(v, v % Pow2(e), regSize, n, shift, s, e);
  }

  lemma SignedTwice(v: nat, e: nat)
    requires 0 < e < 64 && v < TWO64
    ensures v % Pow2(e) >= 0 && SignExtend(v, e) == SignExtend(v % Pow2(e), e)
  {
    ModBelow(v, e);
    FitsWord(v % Pow2(e), e, 64);
    SignExtendIsSigned(v, e);
    SignExtendIsSigned(v % Pow2(e), e);
  }

  lemma SameSign(v: nat, w: nat, regSize: nat, n: nat, shift: Shift, s: nat, e: nat)
    requires regSize <= e < n && (e == 0 ==> v == w) && (e > 0 ==> SignExtend(v, e) == SignExtend(w, e))
    ensures ShiftValue(v, regSize, n, shift, ExtendSigned, s, e) == ShiftValue(w, e, n, shift, ExtendSigned, s, e)
  {
  }

  // ---- the address operand ----

  // The branches only skip additions of zero; the result is one sum modulo 2^min(64, addressSize).
  lemma AddressIsSum(segment: nat, base: nat, index: nat, scale: int, displacement: int, addressSize: nat)
    requires segment < TWO64 && base < TWO64 && index < TWO64 && -TWO63 < displacement < TWO63
    ensures AddressValue(segment, base, index, scale, displacement, addressSize)
         == Some((segment + base + index * scale + displacement) % Pow2(if addressSize < 64 then addressSize else 64))
  {
    var p := index * scale;
    IndexStep(base, index, scale);
    AddressSteps(segment, base, index, scale, displacement, addressSize, p);
    var sum := segment + base + p + displacement;
    Pow2Values();
    MaskIsMod(sum % TWO64, addressSize);
    WordModK(sum, if addressSize < 64 then addressSize else 64);
  }

  lemma WordModK(y: int, k: nat)
    requires k <= 64
    ensures (y % TWO64) % Pow2(k) == y % Pow2(k)
  {
    Pow2Values();
    Pow2Add(k, 64 - k);
    ModTwice(y, Pow2(k), Pow2(64 - k));
  }

  // The three conditional additions, p standing for index * scale.
  lemma AddressSteps(segment: nat, base: nat, index: nat, scale: int, displacement: int, addressSize: nat, p: int)
    requires segment < TWO64 && base < TWO64 && -TWO63 < displacement < TWO63
    requires (base + index * (scale % TWO64)) % TWO64 == (base + p) % TWO64
    requires index == 0 ==> (base + p) % TWO64 == base
    ensures
      var a := (segment + base + p + displacement) % TWO64;
      AddressValue(segment, base, index, scale, displacement, addressSize)
        == Some(if addressSize < 64 then MaskToBits(a, addressSize) else a)
  {
    var a1 := (base + p) % TWO64;
    var a2 := (a1 + displacement) % TWO64;
    var a3 := (a2 + segment) % TWO64;
    AddressParts(segment, base + p, displacement);
    assert displacement == 0 ==> a2 == a1;
    assert segment == 0 ==> a3 == a2;
    AddressCases(segment, base, index, scale, displacement, addressSize, a1, a2, a3);
  }

  lemma AddressParts(segment: int, start: int, displacement: int)
    ensures (((start % TWO64 + displacement) % TWO64) + segment) % TWO64 == (segment + start + displacement) % TWO64
  {
    ModAddCancel(start, displacement, TWO64);
    ModAddCancel(start + displacement, segment, TWO64);
  }

  lemma AddressCases(segment: nat, base: nat, index: nat, scale: int, displacement: int, addressSize: nat, a1: nat,
                     a2: nat, a3: nat)
    requires -TWO63 < displacement
    requires a1 == if index != 0 then (base + index * (scale % TWO64)) % TWO64 else base
    requires a2 == if displacement == 0 then a1 else (a1 + displacement) % TWO64
    requires a3 == if segment == 0 then a2 else (a2 + segment) % TWO64
    ensures AddressValue(segment, base, index, scale, displacement, addressSize)
         == Some(if addressSize < 64 then MaskToBits(a3, addressSize) else a3)
  {
    assert a1 - (-displacement) == a1 + displacement;
  }

  lemma IndexStep(base: nat, index: nat, scale: int)
    requires base < TWO64
    ensures (base + index * (scale % TWO64)) % TWO64 == (base + index * scale) % TWO64
    ensures index == 0 ==> (base + index * scale) % TWO64 == base
  {
    ModMulCancel(scale, index, TWO64);
    assert index * (scale % TWO64) == scale % TWO64 * index && index * scale == scale * index;
    ModAddCancel(index * (scale % TWO64), base, TWO64);
    ModAddCancel(index * scale, base, TWO64);
  }

  // ---- whole operands ----

  lemma {:induction false} LittleEndianBound(cpu: Cpu, offset: nat, n: nat)
    ensures LittleEndian(cpu, offset, n) < Pow2(8 * n)
    decreases n
  {
    if n != 0 {
      LittleEndianBound(cpu, offset + 1, n - 1);
      Pow2Add(8, 8 * (n - 1));
      assert Pow2(8) == 256;
    }
  }

  lemma LoadRegBound(cpu: Cpu, offset: nat, size: nat)
    ensures LoadReg(cpu, offset, size) < TWO64
  {
    var n := (size + 7) / 8;
    if n <= 8 {
      LittleEndianBound(cpu, offset, n);
      BytesFit(n);
    }
  }

  // A register loads into any operand of whole bytes that is not smaller.
  lemma LoadRegFits(cpu: Cpu, offset: nat, size: nat, k: nat)
    requires size <= k <= 64 && k % 8 == 0
    ensures LoadReg(cpu, offset, size) < Pow2(k) && (size == 0 ==> LoadReg(cpu, offset, size) == 0)
  {
    var n := (size + 7) / 8;
    BytesWithin(size, n, k);
    LittleEndianBound(cpu, offset, n);
    Pow2Monotone(8 * n, k);
  }

  lemma BytesWithin(size: nat, n: nat, k: nat)
    requires n == (size + 7) / 8 && size <= k <= 64 && k % 8 == 0
    ensures 8 * n <= k && n <= 8
  {
  }

  lemma BytesFit(n: nat)
    requires n <= 8
    ensures Pow2(8 * n) <= TWO64
  {
    Pow2Values();
    Pow2Monotone(8 * n, 64);
  }

  // An address operand reads as segment + base + index * scale + displacement.
  lemma AddressOperandExact(action: nat, size: nat, segment: RegRef, base: RegRef, index: RegRef, scale: int,
                            displacement: int,
                            addressSize: nat, kind: nat, pointer: bool, offs: Offsets, cpu: Cpu)
    requires -TWO63 < displacement < TWO63
    ensures EvalOperand(Operand(action, size, Address(segment, base, index, scale, displacement, addressSize, kind)),
                        pointer, offs, cpu)
         == Some((WordOrZero(segment, cpu) + WordOrZero(base, cpu) + WordOrZero(index, cpu) * scale + displacement)
                 % Pow2(if addressSize < 64 then addressSize else 64))
  {
    LoadRegBound(cpu, segment.offset, segment.size);
    LoadRegBound(cpu, base.offset, base.size);
    LoadRegBound(cpu, index.offset, index.size);
    AddressIsSum(WordOrZero(segment, cpu), WordOrZero(base, cpu), WordOrZero(index, cpu), scale, displacement,
                 addressSize);
  }
}
