/** JavaScript numbers as the bit-twiddling code uses them: a number is an `int`, an
    operand of a bitwise operator is reduced to 32 bits first, and the result of every
    bitwise operator except `>>>` is a signed 32-bit number. */
module JsNumber {

  const MAX_SAFE_INTEGER: int := 0x1F_FFFF_FFFF_FFFF

  type byte = x: int | 0 <= x < 0x100
  type u32 = x: int | 0 <= x < 0x1_0000_0000
  type i32 = x: int | -0x8000_0000 <= x < 0x8000_0000

  function ToUint32(x: int): u32 {
    x % 0x1_0000_0000
  }

  lemma Uint32Idempotent(x: u32)
    ensures ToUint32(x) == x
  {}

  function ToInt32(x: int): i32 {
    if x % 0x1_0000_0000 < 0x8000_0000 then x % 0x1_0000_0000 else x % 0x1_0000_0000 - 0x1_0000_0000
  }

  function Pow2(n: nat): (p: nat)
    ensures p > 0
  {
    if n == 0 then 1 else 2 * Pow2(n - 1)
  }

  datatype BitOp = And | Or | Xor

  function OnBits(op: BitOp, p: nat, q: nat): (r: nat)
    requires p < 2 && q < 2
    ensures r < 2
  {
    match op
    case And => if p == 1 && q == 1 then 1 else 0
    case Or => if p == 1 || q == 1 then 1 else 0
    case Xor => if p != q then 1 else 0
  }

  /** The operator applied to every binary digit of two naturals. */
  function Bitwise(op: BitOp, a: nat, b: nat): nat
    decreases a + b
  {
    if a == 0 && b == 0 then 0
    else OnBits(op, a % 2, b % 2) + 2 * Bitwise(op, a / 2, b / 2)
  }

  lemma {:induction false} BitwiseBound(op: BitOp, a: nat, b: nat, k: nat)
    requires a < Pow2(k) && b < Pow2(k)
    ensures Bitwise(op, a, b) < Pow2(k)
    decreases k
  {
    if k == 0 || (a == 0 && b == 0) {
    } else {
      BitwiseBound(op, a / 2, b / 2, k - 1);
    }
  }

  lemma Pow2Of32()
    ensures Pow2(32) == 0x1_0000_0000
  {
    assert Pow2(8) == 0x100;
    assert Pow2(16) == 0x1_0000;
    assert Pow2(24) == 0x100_0000;
  }

  /** A 32-bit operator on words. */
  function Word(op: BitOp, a: u32, b: u32): u32 {
    Pow2Of32();
    BitwiseBound(op, a, b, 32);
    Bitwise(op, a, b)
  }

  function JsBitwise(op: BitOp, a: int, b: int): i32 {
    ToInt32(Word(op, ToUint32(a), ToUint32(b)))
  }

  function JsNot(a: int): i32 {
    ToInt32(-1 - ToInt32(a))
  }

  function JsShiftLeft(a: int, n: nat): i32
    requires n < 32
  {
    ToInt32(ToInt32(a) * Pow2(n))
  }

  /** `>>` on a number that is not negative after `ToInt32`; the only use is on three-byte groups. */
  function JsShiftRight(a: int, n: nat): i32
    requires 0 <= a < 0x8000_0000 && n < 32
  {
    ShrinksByPow2(a, n);
    a / Pow2(n)
  }

  function JsShiftRightUnsigned(a: int, n: nat): u32
    requires n < 32
  {
    ShrinksByPow2(ToUint32(a), n);
    ToUint32(a) / Pow2(n)
  }

  /** Double addition, where both operands and the sum are integers a double holds exactly. */
  function JsAdd(a: int, b: int): int
    requires -MAX_SAFE_INTEGER <= a <= MAX_SAFE_INTEGER && -MAX_SAFE_INTEGER <= b <= MAX_SAFE_INTEGER
    requires -MAX_SAFE_INTEGER <= a + b <= MAX_SAFE_INTEGER
  {
    a + b
  }

  lemma ShrinksByPow2(a: nat, n: nat)
    ensures 0 <= a / Pow2(n) <= a
  {
    DivisionShrinks(a, Pow2(n));
  }

  lemma DivisionShrinks(a: nat, p: nat)
    requires p > 0
    ensures 0 <= a / p <= a
  {
    var q := a / p;
    if q > a {
      MulMono(p, a + 1, q);
      MulGrows(p, a + 1);
    }
  }

  lemma MulGrows(p: nat, q: int)
    requires p > 0 && q >= 0
    ensures p * q >= q
  {}

  lemma JsBitwiseWord(op: BitOp, a: int, b: int)
    ensures ToUint32(JsBitwise(op, a, b)) == Word(op, ToUint32(a), ToUint32(b))
  {}

  lemma JsNotWord(a: int)
    ensures ToUint32(JsNot(a)) == 0x1_0000_0000 - 1 - ToUint32(a)
  {}

  lemma {:induction false} Pow2Add(m: nat, n: nat)
    ensures Pow2(m + n) == Pow2(m) * Pow2(n)
  {
    if m != 0 {
      Pow2Add(m - 1, n);
      assert Pow2(m + n) == 2 * Pow2(m - 1 + n);
    }
  }

  /** Digits that do not meet are joined by `|` as they are by `+`. */
  lemma {:induction false} OrIsPlus(low: nat, high: nat, k: nat)
    requires low < Pow2(k)
    ensures Bitwise(Or, low, high * Pow2(k)) == low + high * Pow2(k)
    decreases k, high
  {
    if k == 0 {
      OrZero(high);
      assert high * Pow2(0) == high;
    } else {
      var rest := high * Pow2(k - 1);
      assert high * Pow2(k) == 2 * rest;
      OrIsPlus(low / 2, high, k - 1);
      if low != 0 || rest != 0 {
        assert (2 * rest) / 2 == rest && (2 * rest) % 2 == 0;
      }
    }
  }

  lemma {:induction false} OrZero(a: nat)
    ensures Bitwise(Or, 0, a) == a
    decreases a
  {
    if a != 0 {
      OrZero(a / 2);
    }
  }

  /** `x & (2^k - 1)` keeps the k lowest digits. */
  lemma {:induction false} MaskIsMod(a: nat, k: nat)
    ensures Bitwise(And, a, Pow2(k) - 1) == a % Pow2(k)
    decreases k, a
  {
    hide Bitwise;
    if k == 0 {
      AndZero(a);
    } else {
      MaskIsMod(a / 2, k - 1);
      MaskOneMore(a, Pow2(k - 1));
    }
  }

  lemma MaskOneMore(a: nat, p: nat)
    requires p > 0 && Bitwise(And, a / 2, p - 1) == a / 2 % p
    ensures Bitwise(And, a, 2 * p - 1) == a % (2 * p)
  {
    hide Bitwise;
    MaskStep(a, p);
    ModSplit(a, p);
  }

  lemma MaskStep(a: nat, p: nat)
    requires p > 0
    ensures Bitwise(And, a, 2 * p - 1) == a % 2 + 2 * Bitwise(And, a / 2, p - 1)
  {
    assert (2 * p - 1) % 2 == 1 && (2 * p - 1) / 2 == p - 1;
    assert OnBits(And, a % 2, 1) == a % 2;
  }

  lemma {:induction false} AndZero(a: nat)
    ensures Bitwise(And, a, 0) == 0
    decreases a
  {
    if a != 0 {
      AndZero(a / 2);
    }
  }

  lemma ModSplit(a: nat, p: nat)
    requires p > 0
    ensures a % (2 * p) == a % 2 + 2 * ((a / 2) % p)
  {
    var h := a / 2;
    assert h == p * (h / p) + h % p;
    var r := a % 2 + 2 * (h % p);
    assert 2 * (p * (h / p)) == (2 * p) * (h / p);
    assert a == (2 * p) * (h / p) + r;
    ModUnique(a, 2 * p, h / p, r);
  }

  lemma ModUnique(a: int, m: nat, q: int, r: int)
    requires m > 0 && a == m * q + r && 0 <= r < m
    ensures a % m == r && a / m == q
  {
    var q', r' := a / m, a % m;
    assert m * q' + r' == m * q + r;
    if q' > q {
      MulMono(m, q + 1, q');
    } else if q' < q {
      MulMono(m, q' + 1, q);
    }
  }

  /** The rotation of FIPS 180-4 section 3.2, item 4, as a number: the n lowest digits move to the top. */
  function RotateRight(x: u32, n: nat): u32
    requires 0 < n < 32
  {
    hide Pow2;
    RotateRightBound(x, n);
    x / Pow2(n) + (x % Pow2(n)) * Pow2(32 - n)
  }

  lemma RotateRightBound(x: u32, n: nat)
    requires 0 < n < 32
    ensures x / Pow2(n) < Pow2(32 - n)
    ensures 0 <= x / Pow2(n) + (x % Pow2(n)) * Pow2(32 - n) < 0x1_0000_0000
    ensures ToUint32(x * Pow2(32 - n)) == (x % Pow2(n)) * Pow2(32 - n)
  {
    Pow2Of32();
    Pow2Add(n, 32 - n);
    hide Pow2;
    SplitProduct(x, Pow2(n), Pow2(32 - n));
  }

  lemma SplitProduct(x: nat, p: nat, q: nat)
    requires p > 0 && q > 0 && x < p * q
    ensures x / p < q
    ensures 0 <= x / p + (x % p) * q < p * q
    ensures (x * q) % (p * q) == (x % p) * q
  {
    var d, r := x / p, x % p;
    QuotientBelow(x, p, q);
    RemainderFits(r, p, q);
    RotationBound(d, r, p, q);
    Rearrange(p, q, d, r);
    ModUnique(x * q, p * q, d, r * q);
  }

  lemma QuotientBelow(x: nat, p: nat, q: nat)
    requires p > 0 && q > 0 && x < p * q
    ensures 0 <= x / p < q
  {
    if x / p >= q {
      MulMono(p, q, x / p);
    }
  }

  lemma RemainderFits(r: nat, p: nat, q: nat)
    requires 0 <= r < p && q > 0
    ensures 0 <= r * q <= p * q - q
  {
    MulMono(q, r, p - 1);
  }

  lemma RotationBound(d: nat, r: nat, p: nat, q: nat)
    requires d < q && 0 <= r * q <= p * q - q
    ensures 0 <= d + r * q < p * q
  {}

  lemma Rearrange(p: int, q: int, d: int, r: int)
    ensures (p * d + r) * q == (p * q) * d + r * q
  {}

  lemma MulMono(p: nat, a: int, b: int)
    requires a <= b
    ensures p * a <= p * b
  {}
}
