/** Machine words as integers, and the bit operations both the RISC-V and the
    WebAssembly side are defined with. */
module Words {
  const TWO31: int := 0x8000_0000
  const TWO32: int := 0x1_0000_0000
  const TWO63: int := 0x8000_0000_0000_0000
  const TWO64: int := 0x1_0000_0000_0000_0000

  type byte = x: int | 0 <= x < 256

  type Str = seq<byte>
  type u32 = x: int | 0 <= x < TWO32
  type u64 = x: int | 0 <= x < TWO64
  type i64 = x: int | -TWO63 <= x < TWO63

  datatype Option<+T> = None | Some(value: T)

  function Wrap32(x: int): u32 { x % TWO32 }

  function Wrap64(x: int): u64 { x % TWO64 }

  /** The two's complement reading of a word. */
  function Signed32(x: u32): int { if x < TWO31 then x else x - TWO32 }

  function Signed64(x: u64): int { if x < TWO63 then x else x - TWO64 }

  function Pow2(n: nat): (r: nat)
    ensures r >= 1
  {
    if n == 0 then 1 else 2 * Pow2(n - 1)
  }

  // Products, quotients and shifts are defined by recursion, which keeps non-linear
  // arithmetic away from every proof that only compares them; TimesIsProduct,
  // QuotIsQuotient, ShiftLeftIsProduct and ShiftRightIsQuotient say what they are.

  function Times(a: int, b: nat): int { if b == 0 then 0 else a + Times(a, b - 1) }

  function SignedTimes(a: int, b: int): int { if b < 0 then -Times(a, -b) else Times(a, b) }

  function Quot(a: nat, b: nat): nat
    requires b > 0
  {
    if a < b then 0 else 1 + Quot(a - b, b)
  }

  function Rem(a: nat, b: nat): nat
    requires b > 0
  {
    if a < b then a else Rem(a - b, b)
  }

  function ShiftLeft(a: int, k: nat): int { if k == 0 then a else 2 * ShiftLeft(a, k - 1) }

  /** Rounds down, also for a negative `a`. */
  function ShiftRight(a: int, k: nat): int
    decreases k, a
  {
    if k == 0 then a else ShiftRight(a / 2, k - 1)
  }

  function Min(a: int, b: int): int { if a < b then a else b }

  function Max(a: int, b: int): int { if a < b then b else a }

  function Abs(a: int): nat { if a < 0 then -a else a }

  /** Quotient rounded toward zero, and its remainder. */
  function TruncDiv(a: int, b: int): int
    requires b != 0
  {
    var q: int := Quot(Abs(a), Abs(b));
    if (a < 0) == (b < 0) then q else -q
  }

  function TruncRem(a: int, b: int): int
    requires b != 0
  {
    var r: int := Rem(Abs(a), Abs(b));
    if a < 0 then -r else r
  }

  datatype BitOp = And | Or | Xor

  function Bit(op: BitOp, a: int, b: int): (r: int)
    requires 0 <= a < 2 && 0 <= b < 2
    ensures 0 <= r < 2
  {
    match op
    case And => if a == 1 && b == 1 then 1 else 0
    case Or => if a == 1 || b == 1 then 1 else 0
    case Xor => if a != b then 1 else 0
  }

  /** Bitwise operation on the low n bits. */
  function Bitwise(op: BitOp, a: nat, b: nat, n: nat): (r: nat)
    ensures r < Pow2(n)
  {
    if n == 0 then 0 else Bit(op, a % 2, b % 2) + 2 * Bitwise(op, a / 2, b / 2, n - 1)
  }

  /** Bitwise operations on 64-bit and 32-bit words. */
  function Bits64(op: BitOp, a: u64, b: u64): u64 { Wrap64(Bitwise(op, a, b, 64)) }

  function Bits32(op: BitOp, a: u32, b: u32): u32 { Wrap32(Bitwise(op, a, b, 32)) }

  lemma {:induction false} Pow2Values()
    ensures Pow2(31) == TWO31 && Pow2(32) == TWO32 && Pow2(63) == TWO63 && Pow2(64) == TWO64
  {
    Sixteenfold(0, 16, 1);
    Sixteenfold(16, 31, 0x1_0000);
    Sixteenfold(31, 47, TWO31);
    Sixteenfold(47, 63, 0x8000_0000_0000);
  }

  /** Sixteen doublings, or fifteen. */
  lemma {:induction false} Sixteenfold(a: nat, b: nat, v: nat)
    requires Pow2(a) == v && (b == a + 15 || b == a + 16)
    ensures b == a + 15 ==> Pow2(b) == 0x8000 * v
    ensures b == a + 16 ==> Pow2(b) == 0x1_0000 * v
    ensures Pow2(b + 1) == 2 * Pow2(b)
  {
    assert Pow2(a + 2) == 4 * v;
    assert Pow2(a + 4) == 16 * v;
    assert Pow2(a + 6) == 64 * v;
    assert Pow2(a + 8) == 256 * v;
    assert Pow2(a + 10) == 1024 * v;
    assert Pow2(a + 12) == 4096 * v;
    assert Pow2(a + 14) == 16384 * v;
    assert Pow2(a + 15) == 32768 * v;
  }

  /** Halving a remainder by an even power of two. */
  lemma {:induction false} HalfMod(a: int, p: nat)
    requires p >= 1
    ensures a % (2 * p) == a % 2 + 2 * ((a / 2) % p)
    ensures a / (2 * p) == (a / 2) / p
  {
    var q, r := (a / 2) / p, (a / 2) % p;
    assert a / 2 == p * q + r;
    assert 2 * (p * q) == (2 * p) * q;
    DivModUnique(a, 2 * p, q, a % 2 + 2 * r);
  }

  lemma {:induction false} DivModUnique(a: int, d: int, q: int, r: int)
    requires d > 0 && a == d * q + r && 0 <= r < d
    ensures a / d == q && a % d == r
  {
    var q' := a / d;
    assert d * (q - q') == a % d - r;
    if q' != q { MulMono(d, 1, if q' > q then q' - q else q - q'); }
  }

  lemma {:induction false} MulMono(d: int, a: int, b: int)
    requires d >= 0 && a <= b
    ensures d * a <= d * b
  {
  }

  /** A remainder may first be reduced by a multiple of the divisor. */
  lemma {:induction false} ModOfMod(x: int, c: int, d: int)
    requires c > 0 && d > 0
    ensures c * d > 0 && (x % (c * d)) % d == x % d
  {
    var q := x / (c * d);
    var r := x % (c * d);
    var q2, r2 := r / d, r % d;
    assert x == d * (c * q + q2) + r2 by {
      assert x == (c * d) * q + r && r == d * q2 + r2;
      assert (c * d) * q == d * (c * q);
      assert d * (c * q + q2) == d * (c * q) + d * q2;
    }
    DivModUnique(x, d, c * q + q2, r2);
  }

  /** Masking with 2^k - 1 keeps the remainder. */
  lemma {:induction false} AndLowMask(a: nat, k: nat, n: nat)
    requires k <= n
    ensures Bitwise(And, a, Pow2(k) - 1, n) == a % Pow2(k)
    decreases n
  {
    if k == 0 {
      AndZero(a, n);
      DivModUnique(a, Pow2(0), a, 0);
    } else {
      AndLowMask(a / 2, k - 1, n - 1);
      LowMaskStep(a, Pow2(k - 1), Pow2(k), n);
    }
  }

  lemma {:induction false} LowMaskStep(a: nat, p: nat, q: nat, n: nat)
    requires n > 0 && p >= 1 && q == 2 * p && Bitwise(And, a / 2, p - 1, n - 1) == (a / 2) % p
    ensures Bitwise(And, a, q - 1, n) == a % q
  {
    AndOdd(a, p - 1, n);
    HalfMod(a, p);
  }

  lemma {:induction false} AndOdd(a: nat, b: nat, n: nat)
    requires n > 0
    ensures Bitwise(And, a, 2 * b + 1, n) == a % 2 + 2 * Bitwise(And, a / 2, b, n - 1)
  {
    assert (2 * b + 1) % 2 == 1 && (2 * b + 1) / 2 == b;
  }

  lemma {:induction false} AndZero(a: nat, n: nat)
    ensures Bitwise(And, a, 0, n) == 0
  {
    if n > 0 { AndZero(a / 2, n - 1); }
  }

  /** `& !1` clears bit 0. */
  lemma {:induction false} AndNotOne(a: u64, mask: u64)
    requires mask == TWO64 - 2
    ensures Bits64(And, a, mask) == a - a % 2
  {
    MaskBits(a, mask, 64);
  }

  lemma {:induction false} MaskBits(a: u64, mask: u64, n: nat)
    requires mask == TWO64 - 2 && n == 64
    ensures Bitwise(And, a, mask, n) == a - a % 2
  {
    Pow2Values();
    AndClearBit0(a, n);
  }

  lemma {:induction false} AndClearBit0(a: nat, n: nat)
    requires n > 0
    ensures Bitwise(And, a, Pow2(n) - 2, n) == a % Pow2(n) - a % 2
  {
    AndLowMask(a / 2, n - 1, n - 1);
    ClearStep(a, Pow2(n - 1), Pow2(n), n);
  }

  lemma {:induction false} ClearStep(a: nat, p: nat, q: nat, n: nat)
    requires n > 0 && p >= 1 && q == 2 * p && Bitwise(And, a / 2, p - 1, n - 1) == (a / 2) % p
    ensures Bitwise(And, a, q - 2, n) == a % q - a % 2
  {
    AndEven(a, p - 1, n);
    HalfMod(a, p);
  }

  lemma {:induction false} AndEven(a: nat, b: nat, n: nat)
    requires n > 0
    ensures Bitwise(And, a, 2 * b, n) == 2 * Bitwise(And, a / 2, b, n - 1)
  {
    assert (2 * b) % 2 == 0 && (2 * b) / 2 == b;
  }

  /** Testing the sign bit of a 32-bit word, and setting it. */
  lemma {:induction false} TopBit(a: nat, n: nat)
    requires a < Pow2(n + 1)
    ensures Bitwise(And, a, Pow2(n), n + 1) == (if a >= Pow2(n) then Pow2(n) else 0)
    ensures a < Pow2(n) ==> Bitwise(Or, Pow2(n), a, n + 1) == Pow2(n) + a
  {
    if n == 0 {
      assert Bitwise(And, a, 1, 1) == Bit(And, a % 2, 1) + 2 * Bitwise(And, a / 2, 0, 0);
      assert Bitwise(Or, 1, a, 1) == Bit(Or, 1, a % 2) + 2 * Bitwise(Or, 0, a / 2, 0);
    } else {
      TopBit(a / 2, n - 1);
      assert Pow2(n) % 2 == 0 && Pow2(n) / 2 == Pow2(n - 1);
    }
  }

  lemma {:induction false} TimesIsProduct(a: int, b: nat)
    ensures Times(a, b) == a * b
  {
    if b > 0 { TimesIsProduct(a, b - 1); }
  }

  lemma {:induction false} QuotIsQuotient(a: nat, b: nat)
    requires b > 0
    ensures Quot(a, b) == a / b && Rem(a, b) == a % b
  {
    if a < b {
      DivModUnique(a, b, 0, a);
    } else {
      QuotIsQuotient(a - b, b);
      var q := (a - b) / b;
      assert a == b * (q + 1) + (a - b) % b;
      DivModUnique(a, b, q + 1, (a - b) % b);
    }
  }

  /** Truncated division: a == b * q + r with |r| < |b|. */
  lemma {:induction false} TruncDivMod(a: int, b: int)
    requires b != 0
    ensures a == b * TruncDiv(a, b) + TruncRem(a, b) && Abs(TruncRem(a, b)) < Abs(b)
  {
    var q: int, d: int, r: int := Abs(b), Quot(Abs(a), Abs(b)), Rem(Abs(a), Abs(b));
    QuotIsQuotient(Abs(a), Abs(b));
    SignRule(q, d);
    assert Abs(a) == q * d + r;
  }

  lemma {:induction false} SignRule(q: int, d: int)
    ensures (-q) * (-d) == q * d && (-q) * d == -(q * d) && q * (-d) == -(q * d)
  {
  }

  lemma {:induction false} ShiftLeftIsProduct(a: int, k: nat)
    ensures ShiftLeft(a, k) == a * Pow2(k)
  {
    if k > 0 {
      ShiftLeftIsProduct(a, k - 1);
      assert 2 * (a * Pow2(k - 1)) == a * (2 * Pow2(k - 1));
    }
  }

  lemma {:induction false} ShiftRightIsQuotient(a: int, k: nat)
    ensures ShiftRight(a, k) == a / Pow2(k)
    decreases k
  {
    if k > 0 {
      ShiftRightIsQuotient(a / 2, k - 1);
      HalfMod(a, Pow2(k - 1));
    }
  }

  /** Setting the sign bit of a non-negative 32-bit word, and testing it. */
  lemma {:induction false} SetSign(flag: u32, a: u32)
    requires flag == TWO31 && a < TWO31
    ensures Bits32(Or, flag, a) == flag + a
  {
    SignBits(flag, a, 31);
  }

  lemma {:induction false} TestSign(a: u32, flag: u32)
    requires flag == TWO31
    ensures Bits32(And, a, flag) == (if a >= TWO31 then TWO31 else 0)
  {
    SignBits(flag, a, 31);
  }

  lemma {:induction false} SignBits(flag: u32, a: u32, n: nat)
    requires flag == TWO31 && n == 31
    ensures a < TWO31 ==> Bitwise(Or, flag, a, n + 1) == flag + a
    ensures Bitwise(And, a, flag, n + 1) == (if a >= TWO31 then TWO31 else 0)
  {
    Pow2Values();
    TopBit(a, n);
  }

  /** Or with a number that has none of the low n bits. */
  lemma {:induction false} OrAbove(c: nat, a: nat, n: nat, m: nat)
    requires a < Pow2(n) && n <= m
    ensures Bitwise(Or, c * Pow2(n), a, m) == a + Pow2(n) * Bitwise(Or, c, 0, m - n)
    decreases n
  {
    if n == 0 {
      assert c * Pow2(n) == c;
    } else {
      OrAbove(c, a / 2, n - 1, m - 1);
      OrEven(c * Pow2(n - 1), a, m);
      Doubled(c, Pow2(n - 1), Bitwise(Or, c, 0, m - n));
    }
  }

  lemma {:induction false} Doubled(c: nat, p: nat, v: nat)
    ensures c * (2 * p) == 2 * (c * p) && 2 * p * v == 2 * (p * v)
  {
  }

  lemma {:induction false} OrEven(x: nat, a: nat, m: nat)
    requires m > 0
    ensures Bitwise(Or, 2 * x, a, m) == a % 2 + 2 * Bitwise(Or, x, a / 2, m - 1)
  {
    assert (2 * x) % 2 == 0 && (2 * x) / 2 == x;
  }

  /** Setting the two top bits of a 32-bit word that has neither. */
  lemma {:induction false} SetTopBits(flag: u32, a: u32)
    requires flag == 0xC000_0000 && a < 0x4000_0000
    ensures Bits32(Or, flag, a) == flag + a
  {
    TopBits(flag, a, 30, 2);
  }

  lemma {:induction false} TopBits(flag: u32, a: u32, n: nat, k: nat)
    requires flag == 0xC000_0000 && a < 0x4000_0000 && n == 30 && k == 2
    ensures Bitwise(Or, flag, a, n + k) == flag + a
  {
    Pow2Values();
    assert Pow2(n + 1) == 2 * Pow2(n);
    OrAbove(3, a, n, n + k);
    assert Bitwise(Or, 3, 0, k) == 3;
  }

  /** A non-empty set has a member. */
  lemma {:induction false} Inhabited(s: set<int>)
    ensures s == {} || exists a :: a in s
  {
    assert (forall a :: a !in s) ==> s == {};
  }

  lemma {:induction false} Assoc<T>(a: seq<T>, b: seq<T>, c: seq<T>, d: seq<T>)
    ensures a + b + c + d == a + (b + (c + d)) && a + b + c + d == a + (b + c + d) && a + b + c == a + (b + c)
  {
  }
}
