/** SHA-256 as FIPS 180-4 defines it: the specification `sha256` is proved against. */
module Fips180 {
  import opened JsNumber

  /** Section 4.2.2. */
  const K: seq<u32> :=
    [0x428a2f98, 0x71374491, 0xb5c0fbcf, 0xe9b5dba5, 0x3956c25b, 0x59f111f1, 0x923f82a4, 0xab1c5ed5] +
    [0xd807aa98, 0x12835b01, 0x243185be, 0x550c7dc3, 0x72be5d74, 0x80deb1fe, 0x9bdc06a7, 0xc19bf174] +
    [0xe49b69c1, 0xefbe4786, 0x0fc19dc6, 0x240ca1cc, 0x2de92c6f, 0x4a7484aa, 0x5cb0a9dc, 0x76f988da] +
    [0x983e5152, 0xa831c66d, 0xb00327c8, 0xbf597fc7, 0xc6e00bf3, 0xd5a79147, 0x06ca6351, 0x14292967] +
    [0x27b70a85, 0x2e1b2138, 0x4d2c6dfc, 0x53380d13, 0x650a7354, 0x766a0abb, 0x81c2c92e, 0x92722c85] +
    [0xa2bfe8a1, 0xa81a664b, 0xc24b8b70, 0xc76c51a3, 0xd192e819, 0xd6990624, 0xf40e3585, 0x106aa070] +
    [0x19a4c116, 0x1e376c08, 0x2748774c, 0x34b0bcb5, 0x391c0cb3, 0x4ed8aa4a, 0x5b9cca4f, 0x682e6ff3] +
    [0x748f82ee, 0x78a5636f, 0x84c87814, 0x8cc70208, 0x90befffa, 0xa4506ceb, 0xbef9a3f7, 0xc67178f2]

  /** Section 5.3.3. */
  const H0: seq<u32> := [0x6a09e667, 0xbb67ae85, 0x3c6ef372, 0xa54ff53a, 0x510e527f, 0x9b05688c, 0x1f83d9ab, 0x5be0cd19]

  // Section 4.1.2

  function Not(x: u32): u32 { 0x1_0000_0000 - 1 - x }

  function Ch(x: u32, y: u32, z: u32): u32 {
    Word(Xor, Word(And, x, y), Word(And, Not(x), z))
  }

  function Maj(x: u32, y: u32, z: u32): u32 {
    Word(Xor, Word(Xor, Word(And, x, y), Word(And, x, z)), Word(And, y, z))
  }

  function ShiftRight(x: u32, n: nat): u32 {
    ShrinksByPow2(x, n);
    x / Pow2(n)
  }

  function BigSigma0(x: u32): u32 {
    Word(Xor, Word(Xor, RotateRight(x, 2), RotateRight(x, 13)), RotateRight(x, 22))
  }

  function BigSigma1(x: u32): u32 {
    Word(Xor, Word(Xor, RotateRight(x, 6), RotateRight(x, 11)), RotateRight(x, 25))
  }

  function SmallSigma0(x: u32): u32 {
    Word(Xor, Word(Xor, RotateRight(x, 7), RotateRight(x, 18)), ShiftRight(x, 3))
  }

  function SmallSigma1(x: u32): u32 {
    Word(Xor, Word(Xor, RotateRight(x, 17), RotateRight(x, 19)), ShiftRight(x, 10))
  }

  // Section 5.1.1, on whole bytes

  function Zeros(n: nat): (z: seq<byte>)
    ensures |z| == n && forall i :: 0 <= i < n ==> z[i] == 0
  {
    seq(n, _ => 0)
  }

  function Bytes32(x: int): (b: seq<byte>)
    ensures |b| == 4
  {
    Octets(x % 0x1_0000_0000)
  }

  function Octets(u: u32): (b: seq<byte>)
    ensures |b| == 4
  {
    [u / 0x100_0000, u / 0x1_0000 % 0x100, u / 0x100 % 0x100, u % 0x100]
  }

  /** How many zero bytes follow the 0x80: the fewest that leave room for the length in a last full block. */
  function ZeroCount(length: nat): (k: nat)
    ensures (length + 1 + k) % 64 == 56
  {
    (55 - length) % 64
  }

  lemma ZeroCountIsLeast(length: nat, j: nat)
    requires (length + 1 + j) % 64 == 56
    ensures ZeroCount(length) <= j
  {}

  /** The length in bits, as 64 bits (section 5.1.1 has it below 2^64; a longer one is taken modulo 2^64). */
  function LengthField(length: nat): (b: seq<byte>)
    ensures |b| == 8
  {
    Bytes32(8 * length / 0x1_0000_0000) + Bytes32(8 * length)
  }

  function Pad(message: seq<byte>): (p: seq<byte>)
    ensures |p| == |message| + ZeroCount(|message|) + 9
  {
    message + [0x80] + Zeros(ZeroCount(|message|)) + LengthField(|message|)
  }

  // Section 6.2.2

  function FourBytes(b0: int, b1: int, b2: int, b3: int): u32
    requires 0 <= b0 < 0x100 && 0 <= b1 < 0x100 && 0 <= b2 < 0x100 && 0 <= b3 < 0x100
  {
    b0 * 0x100_0000 + b1 * 0x1_0000 + b2 * 0x100 + b3
  }

  function BigEndian(b: seq<byte>, at: nat): u32
    requires at + 4 <= |b|
  {
    FourBytes(b[at], b[at + 1], b[at + 2], b[at + 3])
  }

  function Extended(w16: u32, w15: u32, w7: u32, w2: u32): u32 {
    ToUint32(SmallSigma1(w2) + w7 + SmallSigma0(w15) + w16)
  }

  /** The message schedule of the block that starts at `at`, up to word `n`. */
  function Schedule(p: seq<byte>, at: nat, n: nat): (w: seq<u32>)
    requires at + 64 <= |p| && n <= 64
    ensures |w| == n
  {
    if n == 0 then []
    else
      var w := Schedule(p, at, n - 1);
      var t := n - 1;
      w + [if t < 16 then BigEndian(p, at + 4 * t)
           else Extended(w[t - 16], w[t - 15], w[t - 7], w[t - 2])]
  }

  datatype Registers = Registers(a: u32, b: u32, c: u32, d: u32, e: u32, f: u32, g: u32, h: u32)

  function T1(e: u32, f: u32, g: u32, h: u32, k: u32, w: u32): u32 {
    ToUint32(h + BigSigma1(e) + Ch(e, f, g) + k + w)
  }

  function T2(a: u32, b: u32, c: u32): u32 {
    ToUint32(BigSigma0(a) + Maj(a, b, c))
  }

  function Round(r: Registers, k: u32, w: u32): Registers {
    var t1 := T1(r.e, r.f, r.g, r.h, k, w);
    var t2 := T2(r.a, r.b, r.c);
    Registers(Plus(t1, t2), r.a, r.b, r.c, Plus(r.d, t1), r.e, r.f, r.g)
  }

  function Rounds(r: Registers, w: seq<u32>, n: nat): Registers
    requires |w| == 64 && n <= 64
  {
    if n == 0 then r else Round(Rounds(r, w, n - 1), K[n - 1], w[n - 1])
  }

  function Plus(x: int, y: int): u32 {
    ToUint32(x + y)
  }

  function Start(h: seq<u32>): Registers
    requires |h| == 8
  {
    Registers(h[0], h[1], h[2], h[3], h[4], h[5], h[6], h[7])
  }

  function Compress(h: seq<u32>, p: seq<byte>, at: nat): (next: seq<u32>)
    requires |h| == 8 && at + 64 <= |p|
    ensures |next| == 8
  {
    var r := Rounds(Start(h), Schedule(p, at, 64), 64);
    [Plus(h[0], r.a), Plus(h[1], r.b), Plus(h[2], r.c), Plus(h[3], r.d),
     Plus(h[4], r.e), Plus(h[5], r.f), Plus(h[6], r.g), Plus(h[7], r.h)]
  }

  function HashBlocks(p: seq<byte>, n: nat): (h: seq<u32>)
    requires 64 * n <= |p|
    ensures |h| == 8
  {
    if n == 0 then H0 else Compress(HashBlocks(p, n - 1), p, 64 * (n - 1))
  }

  function WordBytes(h: seq<u32>): (b: seq<byte>)
    ensures |b| == 4 * |h|
  {
    if h == [] then [] else WordBytes(h[..|h| - 1]) + Bytes32(h[|h| - 1])
  }

  function Sha256(message: seq<byte>): (digest: seq<byte>)
    ensures |digest| == 32
  {
    var p := Pad(message);
    WordBytes(HashBlocks(p, |p| / 64))
  }
}

/** The `sha256` of shared/claims-fingerprint.ts: typed arrays written in place, and JavaScript's
    signed 32-bit operators mixed into double additions. */
module Sha256 {
  import opened JsNumber
  import Fips180

  function RotateRight(value: int, bits: nat): i32
    requires 0 < bits < 32
  {
    JsBitwise(Or, JsShiftRightUnsigned(value, bits), JsShiftLeft(value, 32 - bits))
  }

  /** The signed rotation denotes the rotation of the word. */
  lemma RotateRightWord(value: int, bits: nat)
    requires 0 < bits < 32
    ensures ToUint32(RotateRight(value, bits)) == JsNumber.RotateRight(ToUint32(value), bits)
  {
    hide Pow2, Bitwise, ToUint32, JsBitwise, JsShiftLeft;
    var x, right := ToUint32(value), JsShiftRightUnsigned(value, bits);
    RotateRightBound(x, bits);
    ShrinksByPow2(x, bits);
    Uint32Idempotent(right);
    ShiftLeftWord(value, 32 - bits);
    OrIsPlus(right, x % Pow2(bits), 32 - bits);
    JsBitwiseWord(Or, right, JsShiftLeft(value, 32 - bits));
  }

  lemma ShiftLeftWord(value: int, k: nat)
    requires k < 32
    ensures ToUint32(JsShiftLeft(value, k)) == ToUint32(ToUint32(value) * Pow2(k))
  {
    SameShift(ToInt32(value), ToUint32(value), Pow2(k));
  }

  lemma SameShift(signed: i32, x: u32, q: nat)
    requires signed == x || signed == x - 0x1_0000_0000
    ensures (signed * q) % 0x1_0000_0000 == ToUint32(x * q)
  {
    if signed == x - 0x1_0000_0000 {
      var y := x * q;
      assert signed * q == y - 0x1_0000_0000 * q;
      ShiftByMultiple(y, q);
    }
  }

  lemma ShiftByMultiple(y: int, q: nat)
    ensures (y - 0x1_0000_0000 * q) % 0x1_0000_0000 == y % 0x1_0000_0000
  {
    ModUnique(y - 0x1_0000_0000 * q, 0x1_0000_0000, y / 0x1_0000_0000 - q, y % 0x1_0000_0000);
  }

  // The expressions of the two inner loops, operator for operator.

  function S0(w15: int): i32 {
    JsBitwise(Xor, JsBitwise(Xor, RotateRight(w15, 7), RotateRight(w15, 18)), JsShiftRightUnsigned(w15, 3))
  }

  function S1(w2: int): i32 {
    JsBitwise(Xor, JsBitwise(Xor, RotateRight(w2, 17), RotateRight(w2, 19)), JsShiftRightUnsigned(w2, 10))
  }

  function Sum1(e: int): i32 {
    JsBitwise(Xor, JsBitwise(Xor, RotateRight(e, 6), RotateRight(e, 11)), RotateRight(e, 25))
  }

  function Sum0(a: int): i32 {
    JsBitwise(Xor, JsBitwise(Xor, RotateRight(a, 2), RotateRight(a, 13)), RotateRight(a, 22))
  }

  function Choose(e: int, f: int, g: int): i32 {
    JsBitwise(Xor, JsBitwise(And, e, f), JsBitwise(And, JsNot(e), g))
  }

  function Majority(a: int, b: int, c: int): i32 {
    JsBitwise(Xor, JsBitwise(Xor, JsBitwise(And, a, b), JsBitwise(And, a, c)), JsBitwise(And, b, c))
  }

  function ExtendWord(w16: u32, w15: u32, w7: u32, w2: u32): u32 {
    ToUint32(JsAdd(JsAdd(JsAdd(w16, S0(w15)), w7), S1(w2)))
  }

  function Temp1(e: u32, f: u32, g: u32, h: u32, k: u32, w: u32): u32 {
    ToUint32(JsAdd(JsAdd(JsAdd(JsAdd(h, Sum1(e)), Choose(e, f, g)), k), w))
  }

  function Temp2(a: u32, b: u32, c: u32): u32 {
    ToUint32(JsAdd(Sum0(a), Majority(a, b, c)))
  }

  lemma Nested(outer: BitOp, inner: BitOp, x: int, y: int, z: int)
    ensures ToUint32(JsBitwise(outer, JsBitwise(inner, x, y), z)) == Word(outer, Word(inner, ToUint32(x), ToUint32(y)), ToUint32(z))
  {
    JsBitwiseWord(outer, JsBitwise(inner, x, y), z);
    JsBitwiseWord(inner, x, y);
  }

  lemma ThreeRotations(x: u32, i: nat, j: nat, k: nat)
    requires 0 < i < 32 && 0 < j < 32 && 0 < k < 32
    ensures ToUint32(JsBitwise(Xor, JsBitwise(Xor, RotateRight(x, i), RotateRight(x, j)), RotateRight(x, k)))
         == Word(Xor, Word(Xor, JsNumber.RotateRight(x, i), JsNumber.RotateRight(x, j)), JsNumber.RotateRight(x, k))
  {
    Uint32Idempotent(x);
    hide JsBitwise, RotateRight, JsNumber.RotateRight, Word, ToUint32;
    RotateRightWord(x, i);
    RotateRightWord(x, j);
    RotateRightWord(x, k);
    Nested(Xor, Xor, RotateRight(x, i), RotateRight(x, j), RotateRight(x, k));
  }

  lemma RotationsAndShift(x: u32, i: nat, j: nat, k: nat)
    requires 0 < i < 32 && 0 < j < 32 && 0 < k < 32
    ensures ToUint32(JsBitwise(Xor, JsBitwise(Xor, RotateRight(x, i), RotateRight(x, j)), JsShiftRightUnsigned(x, k)))
         == Word(Xor, Word(Xor, JsNumber.RotateRight(x, i), JsNumber.RotateRight(x, j)), Fips180.ShiftRight(x, k))
  {
    hide JsBitwise, RotateRight, JsNumber.RotateRight, Word, ToUint32, JsShiftRightUnsigned, Fips180.ShiftRight;
    RotateRightWord(x, i);
    RotateRightWord(x, j);
    ShiftIs(x, k);
    Nested(Xor, Xor, RotateRight(x, i), RotateRight(x, j), JsShiftRightUnsigned(x, k));
  }

  lemma ShiftIs(x: u32, k: nat)
    requires 0 < k < 32
    ensures ToUint32(JsShiftRightUnsigned(x, k)) == Fips180.ShiftRight(x, k)
    ensures ToUint32(x) == x
  {
    Uint32Idempotent(x);
    Uint32Idempotent(JsShiftRightUnsigned(x, k));
    hide Pow2;
  }

  lemma Sigmas(x: u32)
    ensures ToUint32(S0(x)) == Fips180.SmallSigma0(x)
    ensures ToUint32(S1(x)) == Fips180.SmallSigma1(x)
    ensures ToUint32(Sum0(x)) == Fips180.BigSigma0(x)
    ensures ToUint32(Sum1(x)) == Fips180.BigSigma1(x)
  {
    hide JsBitwise, RotateRight, JsNumber.RotateRight, Word, ToUint32, JsShiftRightUnsigned, Fips180.ShiftRight;
    RotationsAndShift(x, 7, 18, 3);
    RotationsAndShift(x, 17, 19, 10);
    ThreeRotations(x, 2, 13, 22);
    ThreeRotations(x, 6, 11, 25);
  }

  lemma ChooseIsCh(x: u32, y: u32, z: u32)
    ensures ToUint32(Choose(x, y, z)) == Fips180.Ch(x, y, z)
    ensures ToUint32(Majority(x, y, z)) == Fips180.Maj(x, y, z)
  {
    hide JsBitwise, Word;
    JsNotWord(x);
    JsBitwiseWord(And, x, y);
    JsBitwiseWord(And, JsNot(x), z);
    JsBitwiseWord(Xor, JsBitwise(And, x, y), JsBitwise(And, JsNot(x), z));
    JsBitwiseWord(And, x, z);
    JsBitwiseWord(And, y, z);
    Nested(Xor, Xor, JsBitwise(And, x, y), JsBitwise(And, x, z), JsBitwise(And, y, z));
  }

  // Reducing once after an exact sum of signed and unsigned numbers is addition modulo 2^32 of their words.

  lemma ExtendWordReduces(w16: u32, w15: u32, w7: u32, w2: u32)
    ensures ExtendWord(w16, w15, w7, w2) == Fips180.Extended(w16, w15, w7, w2)
  {
    hide ToUint32, S0, S1, Sum0, Sum1, Fips180.SmallSigma0, Fips180.SmallSigma1, Fips180.BigSigma0, Fips180.BigSigma1;
    Sigmas(w15);
    Sigmas(w2);
    AddReduced(S0(w15), S1(w2), w16 + w7);
  }

  lemma Temp1Reduces(e: u32, f: u32, g: u32, h: u32, k: u32, w: u32)
    ensures Temp1(e, f, g, h, k, w) == Fips180.T1(e, f, g, h, k, w)
  {
    hide ToUint32, S0, S1, Sum0, Sum1, Choose, Majority, Fips180.SmallSigma0, Fips180.SmallSigma1, Fips180.BigSigma0, Fips180.BigSigma1, Fips180.Ch, Fips180.Maj;
    Sigmas(e);
    ChooseIsCh(e, f, g);
    AddReduced(Sum1(e), Choose(e, f, g), h + k + w);
  }

  lemma Temp2Reduces(a: u32, b: u32, c: u32)
    ensures Temp2(a, b, c) == Fips180.T2(a, b, c)
  {
    hide ToUint32, S0, S1, Sum0, Sum1, Choose, Majority, Fips180.SmallSigma0, Fips180.SmallSigma1, Fips180.BigSigma0, Fips180.BigSigma1, Fips180.Ch, Fips180.Maj;
    Sigmas(a);
    ChooseIsCh(a, b, c);
    AddReduced(Sum0(a), Majority(a, b, c), 0);
  }

  lemma AddReduced(x: i32, y: i32, rest: int)
    ensures ToUint32(x + y + rest) == ToUint32(ToUint32(x) + ToUint32(y) + rest)
  {}

  method SetUint32(view: array<byte>, at: nat, value: int)
    requires at + 4 <= view.Length
    modifies view
    ensures view[..] == old(view[..at]) + Fips180.Bytes32(value) + old(view[at + 4..])
  {
    var u := ToUint32(value);
    view[at] := u / 0x100_0000;
    view[at + 1] := u / 0x1_0000 % 0x100;
    view[at + 2] := u / 0x100 % 0x100;
    view[at + 3] := u % 0x100;
  }

  lemma PaddedLength(n: nat)
    ensures (n + 9 + 63) / 64 * 64 == n + 1 + Fips180.ZeroCount(n) + 8
  {}

  /** `padded.set(bytes)` on a zeroed buffer. */
  method SetBytes(bytes: seq<byte>, length: nat) returns (padded: array<byte>)
    requires |bytes| <= length
    ensures fresh(padded) && padded.Length == length && padded[..|bytes|] == bytes
    ensures forall j :: |bytes| <= j < length ==> padded[j] == 0
  {
    padded := new byte[length](_ => 0);
    for i := 0 to |bytes|
      invariant forall j :: 0 <= j < i ==> padded[j] == bytes[j]
      invariant forall j :: i <= j < length ==> padded[j] == 0
    {
      padded[i] := bytes[i];
    }
  }

  /** Lines 57-65: a zeroed buffer, the message, the 0x80 and the two halves of the bit length. */
  method Pad(bytes: seq<byte>) returns (padded: array<byte>)
    ensures fresh(padded) && padded[..] == Fips180.Pad(bytes)
  {
    hide Fips180.Bytes32, Fips180.ZeroCount, Fips180.Zeros;
    var n := |bytes|;
    var length := (n + 9 + 63) / 64 * 64;
    PaddedLength(n);
    padded := SetBytes(bytes, length);
    padded[n] := 0x80;
    ghost var head := padded[..length - 8];
    HeadIs(bytes, head);
    SetUint32(padded, length - 8, n * 8 / 0x1_0000_0000);
    assert padded[..length - 4] == head + Fips180.Bytes32(n * 8 / 0x1_0000_0000);
    SetUint32(padded, length - 4, ToUint32(n * 8));
    SameBytes(n * 8);
  }

  lemma HeadIs(bytes: seq<byte>, head: seq<byte>)
    requires |head| == |bytes| + 1 + Fips180.ZeroCount(|bytes|) && head[..|bytes|] == bytes && head[|bytes|] == 0x80
    requires forall j | |bytes| < j < |head| :: head[j] == 0
    ensures head == bytes + [0x80] + Fips180.Zeros(Fips180.ZeroCount(|bytes|))
  {
    hide Fips180.ZeroCount;
  }

  lemma SameBytes(x: int)
    ensures Fips180.Bytes32(ToUint32(x)) == Fips180.Bytes32(x)
  {
    hide Fips180.Octets;
    Uint32Idempotent(ToUint32(x));
  }

  method FillSchedule(padded: array<byte>, offset: nat, schedule: array<u32>)
    requires offset + 64 <= padded.Length && schedule.Length == 64
    modifies schedule
    ensures schedule[..] == Fips180.Schedule(padded[..], offset, 64)
  {
    hide ExtendWord, Fips180.Extended, Fips180.FourBytes;
    ghost var p := padded[..];
    for index := 0 to 16
      invariant schedule[..index] == Fips180.Schedule(p, offset, index)
    {
      var at := offset + index * 4;
      schedule[index] := Fips180.FourBytes(padded[at], padded[at + 1], padded[at + 2], padded[at + 3]);
      assert schedule[..index + 1] == schedule[..index] + [schedule[index]];
    }
    for index := 16 to 64
      invariant schedule[..index] == Fips180.Schedule(p, offset, index)
    {
      ghost var before := schedule[..index];
      var w16, w15, w7, w2 := schedule[index - 16], schedule[index - 15], schedule[index - 7], schedule[index - 2];
      schedule[index] := ExtendWord(w16, w15, w7, w2);
      ExtendWordReduces(w16, w15, w7, w2);
      assert schedule[..index + 1] == before + [schedule[index]];
    }
    assert schedule[..64] == schedule[..];
  }

  /** Lines 83-101: the sixty-four rounds over the working variables. */
  method RunRounds(hash: array<u32>, schedule: array<u32>)
    returns (a: u32, b: u32, c: u32, d: u32, e: u32, f: u32, g: u32, h: u32)
    requires hash.Length == 8 && schedule.Length == 64
    ensures Fips180.Registers(a, b, c, d, e, f, g, h) == Fips180.Rounds(Fips180.Start(hash[..]), schedule[..], 64)
  {
    hide Temp1, Temp2, Fips180.T1, Fips180.T2, ToUint32;
    a, b, c, d, e, f, g, h := hash[0], hash[1], hash[2], hash[3], hash[4], hash[5], hash[6], hash[7];
    for index := 0 to 64
      invariant Fips180.Registers(a, b, c, d, e, f, g, h) == Fips180.Rounds(Fips180.Start(hash[..]), schedule[..], index)
    {
      var temp1 := Temp1(e, f, g, h, Fips180.K[index], schedule[index]);
      var temp2 := Temp2(a, b, c);
      Temp1Reduces(e, f, g, h, Fips180.K[index], schedule[index]);
      Temp2Reduces(a, b, c);
      h := g;
      g := f;
      f := e;
      e := ToUint32(JsAdd(d, temp1));
      d := c;
      c := b;
      b := a;
      a := ToUint32(JsAdd(temp1, temp2));
    }
  }

  method CompressBlock(hash: array<u32>, schedule: array<u32>, ghost p: seq<byte>, ghost offset: nat)
    requires hash.Length == 8 && schedule.Length == 64 && hash != schedule && offset + 64 <= |p|
    requires schedule[..] == Fips180.Schedule(p, offset, 64)
    modifies hash
    ensures hash[..] == Fips180.Compress(old(hash[..]), p, offset)
  {
    hide Fips180.Rounds, Fips180.Plus, Fips180.Schedule, Fips180.Start;
    var a, b, c, d, e, f, g, h := RunRounds(hash, schedule);
    AddWords(hash, [a, b, c, d, e, f, g, h]);
  }

  /** Lines 103-105. */
  method AddWords(hash: array<u32>, words: seq<u32>)
    requires hash.Length == |words| == 8
    modifies hash
    ensures forall i :: 0 <= i < 8 ==> hash[i] == Fips180.Plus(old(hash[i]), words[i])
  {
    hide ToUint32;
    for index := 0 to 8
      invariant forall i :: 0 <= i < index ==> hash[i] == Fips180.Plus(old(hash[i]), words[i])
      invariant forall i :: index <= i < 8 ==> hash[i] == old(hash[i])
    {
      hash[index] := ToUint32(JsAdd(hash[index], words[index]));
    }
  }

  method Sha256(bytes: seq<byte>) returns (digest: seq<byte>)
    ensures digest == Fips180.Sha256(bytes)
  {
    hide Fips180.Compress, Fips180.Schedule, Fips180.Bytes32, Fips180.Pad;
    var hash := new u32[8](i requires 0 <= i < 8 => Fips180.H0[i]);
    assert hash[..] == Fips180.H0;
    var padded := Pad(bytes);
    ghost var p := padded[..];
    var schedule := new u32[64](_ => 0);
    var offset := 0;
    while offset < padded.Length
      invariant offset % 64 == 0 && 0 <= offset <= padded.Length
      invariant padded[..] == p
      invariant hash[..] == Fips180.HashBlocks(p, offset / 64)
    {
      FillSchedule(padded, offset, schedule);
      CompressBlock(hash, schedule, p, offset);
      offset := offset + 64;
    }
    var out := new byte[32](_ => 0);
    for index := 0 to 8
      invariant hash[..] == Fips180.HashBlocks(p, |p| / 64)
      invariant out[..4 * index] == Fips180.WordBytes(hash[..index])
    {
      SetUint32(out, index * 4, hash[index]);
      assert hash[..index + 1][..index] == hash[..index];
    }
    assert hash[..8] == hash[..];
    digest := out[..];
  }
}
