/** Base64 and base64url (shared/base64.ts) against RFC 4648: bytes are cut into six-bit digits, most significant
    first, and a digit is spelled by an alphabet. */
module Base64 {
  import opened JsNumber
  import opened JsText

  type sextet = x: int | 0 <= x < 64

  /** RFC 4648 section 4 and section 5. */
  datatype Alphabet = Standard | UrlSafe

  const PAD: unit := 61

  function Spelled(alphabet: Alphabet, digit: sextet): unit {
    if digit < 26 then (65 + digit as int) as unit
    else if digit < 52 then (71 + digit as int) as unit
    else if digit < 62 then (digit as int - 4) as unit
    else
      match alphabet
      case Standard => if digit == 62 then 43 else 47
      case UrlSafe => if digit == 62 then 45 else 95
  }

  function Spell(alphabet: Alphabet, digits: seq<sextet>): (text: Text)
    ensures |text| == |digits| && forall i | 0 <= i < |text| :: text[i] == Spelled(alphabet, digits[i])
  {
    seq(|digits|, i requires 0 <= i < |digits| => Spelled(alphabet, digits[i]))
  }

  lemma SpellAppend(alphabet: Alphabet, a: seq<sextet>, b: seq<sextet>)
    ensures Spell(alphabet, a + b) == Spell(alphabet, a) + Spell(alphabet, b)
  {}

  function Group(a: int, b: int, c: int): int {
    a * 65536 + b * 256 + c
  }

  /** The six-bit digits of `bytes`: 24 bits give four, a last 16 bits three and a last 8 bits two. */
  function Sextets(bytes: seq<byte>): seq<sextet> {
    if bytes == [] then []
    else if |bytes| == 1 then Leading(Group(bytes[0], 0, 0))[..2]
    else if |bytes| == 2 then Leading(Group(bytes[0], bytes[1], 0))[..3]
    else Leading(Group(bytes[0], bytes[1], bytes[2])) + Sextets(bytes[3..])
  }

  function Leading(n: int): (digits: seq<sextet>)
    requires 0 <= n < 0x100_0000
    ensures |digits| == 4
  {
    [n / 262144, n / 4096 % 64, n / 64 % 64, n % 64]
  }

  /** The bytes that digits stand for; bits that fill no byte are dropped. */
  function Octets(digits: seq<sextet>): seq<byte> {
    if |digits| < 2 then []
    else if |digits| == 2 then Trailing(Join24(digits[0], digits[1], 0, 0))[..1]
    else if |digits| == 3 then Trailing(Join24(digits[0], digits[1], digits[2], 0))[..2]
    else Trailing(Join24(digits[0], digits[1], digits[2], digits[3])) + Octets(digits[4..])
  }

  function Join24(a: int, b: int, c: int, d: int): int {
    a * 262144 + b * 4096 + c * 64 + d
  }

  function Trailing(n: int): (bytes: seq<byte>)
    requires 0 <= n < 0x100_0000
    ensures |bytes| == 3
  {
    [n / 65536, n / 256 % 256, n % 256]
  }

  /** Unpadded base64url. */
  function Encode(bytes: seq<byte>): Text {
    Spell(UrlSafe, Sextets(bytes))
  }

  /** Base64 with its padding. */
  function EncodePadded(bytes: seq<byte>): Text {
    Spell(Standard, Sextets(bytes)) + Padding(Sextets(bytes))
  }

  function Padding(digits: seq<sextet>): Text {
    if |digits| % 4 == 2 then [PAD, PAD] else if |digits| % 4 == 3 then [PAD] else []
  }

  // Digits and bytes

  /** RFC 4648, figure of section 4: which bits of three bytes make each digit. */
  lemma Regroup(a: byte, b: byte, c: byte)
    ensures 0 <= Group(a, b, c) < 0x100_0000
    ensures Leading(Group(a, b, c)) == [a / 4, a % 4 * 16 + b / 16, b % 16 * 4 + c / 64, c % 64]
  {
    var d0, d1, d2, d3 := a as int / 4, a as int % 4 * 16 + b as int / 16, b as int % 16 * 4 + c as int / 64, c as int % 64;
    assert Group(a, b, c) == Join24(d0, d1, d2, d3);
    LeadingUnique(d0, d1, d2, d3);
  }

  lemma LeadingUnique(a: sextet, b: sextet, c: sextet, d: sextet)
    ensures 0 <= Join24(a, b, c, d) < 0x100_0000
    ensures Leading(Join24(a, b, c, d)) == [a, b, c, d]
  {
    var n := Join24(a, b, c, d);
    var ab, abc := a as int * 64 + b as int, a as int * 4096 + b as int * 64 + c as int;
    ModUnique(n, 262144, a, b as int * 4096 + c as int * 64 + d as int);
    ModUnique(n, 4096, ab, c as int * 64 + d as int);
    ModUnique(ab, 64, a, b);
    ModUnique(n, 64, abc, d);
    ModUnique(abc, 64, ab, c);
  }

  /** And which bits of four digits make each byte. */
  lemma Rejoin(a: sextet, b: sextet, c: sextet, d: sextet)
    ensures 0 <= Join24(a, b, c, d) < 0x100_0000
    ensures Trailing(Join24(a, b, c, d)) == [a * 4 + b / 16, b % 16 * 16 + c / 4, c % 4 * 64 + d]
  {
    var x, y, z := a as int * 4 + b as int / 16, b as int % 16 * 16 + c as int / 4, c as int % 4 * 64 + d as int;
    assert Join24(a, b, c, d) == Group(x, y, z);
    TrailingUnique(x, y, z);
  }

  lemma TrailingUnique(a: byte, b: byte, c: byte)
    ensures 0 <= Group(a, b, c) < 0x100_0000
    ensures Trailing(Group(a, b, c)) == [a, b, c]
  {
    var n := Group(a, b, c);
    var ab := a as int * 256 + b as int;
    ModUnique(n, 65536, a, b as int * 256 + c as int);
    ModUnique(n, 256, ab, c);
    ModUnique(ab, 256, a, b);
  }

  /** The bits of three bytes, taken apart and put together again. */
  lemma BytesBack(a: byte, b: byte, c: byte)
    ensures 0 <= Group(a, b, c) < 0x100_0000
    ensures var d := Leading(Group(a, b, c)); Trailing(Join24(d[0], d[1], d[2], d[3])) == [a, b, c]
    ensures c == 0 ==> Leading(Group(a, b, c))[3] == 0
    ensures b == 0 && c == 0 ==> Leading(Group(a, b, c))[2] == 0
  {
    Regroup(a, b, c);
    hide Leading, Trailing;
    assert Group(a, b, c) == Join24(a / 4, a % 4 * 16 + b / 16, b % 16 * 4 + c / 64, c % 64);
    TrailingUnique(a, b, c);
  }

  /** The bits of four digits, likewise. */
  lemma DigitsBack(a: sextet, b: sextet, c: sextet, d: sextet)
    ensures 0 <= Join24(a, b, c, d) < 0x100_0000
    ensures var t := Trailing(Join24(a, b, c, d)); Leading(Group(t[0], t[1], t[2])) == [a, b, c, d]
  {
    Rejoin(a, b, c, d);
    hide Leading, Trailing;
    assert Join24(a, b, c, d) == Group(a * 4 + b / 16, b % 16 * 16 + c / 4, c % 4 * 64 + d);
    LeadingUnique(a, b, c, d);
  }

  /** Every byte string comes back from its digits. */
  lemma {:induction false} OctetsOfSextets(bytes: seq<byte>)
    ensures Octets(Sextets(bytes)) == bytes && |Sextets(bytes)| == (4 * |bytes| + 2) / 3
  {
    hide Group, Leading, Trailing, Join24;
    if |bytes| == 1 {
      BytesBack(bytes[0], 0, 0);
    } else if |bytes| == 2 {
      BytesBack(bytes[0], bytes[1], 0);
    } else if |bytes| >= 3 {
      BytesBack(bytes[0], bytes[1], bytes[2]);
      OctetsOfSextets(bytes[3..]);
      var lead := Leading(Group(bytes[0], bytes[1], bytes[2]));
      assert (lead + Sextets(bytes[3..]))[4..] == Sextets(bytes[3..]);
    }
  }

  /** No bit is set that decoding drops. */
  predicate NoStrayBits(digits: seq<sextet>) {
    && |digits| % 4 != 1
    && (|digits| % 4 == 2 ==> digits[|digits| - 1] % 16 == 0)
    && (|digits| % 4 == 3 ==> digits[|digits| - 1] % 4 == 0)
  }

  /** The other way round: digits come back from their bytes exactly when no stray bit is set. */
  lemma {:induction false} SextetsOfOctets(digits: seq<sextet>)
    ensures Sextets(Octets(digits)) == digits <==> NoStrayBits(digits)
  {
    hide Group, Leading, Trailing, Join24, NoStrayBits;
    StrayBitsAtEnd(digits);
    if |digits| == 2 {
      StrayInTwo(digits[0], digits[1]);
      assert digits == [digits[0], digits[1]];
    } else if |digits| == 3 {
      StrayInThree(digits[0], digits[1], digits[2]);
      assert digits == [digits[0], digits[1], digits[2]];
    } else if |digits| >= 4 {
      DigitsBack(digits[0], digits[1], digits[2], digits[3]);
      var rest := digits[4..];
      SextetsOfOctets(rest);
      var t := Trailing(Join24(digits[0], digits[1], digits[2], digits[3]));
      assert (t + Octets(rest))[3..] == Octets(rest);
      assert Sextets(Octets(digits)) == digits[..4] + Sextets(Octets(rest));
      assert digits == digits[..4] + rest;
    }
  }

  lemma StrayBitsAtEnd(digits: seq<sextet>)
    ensures |digits| >= 4 ==> (NoStrayBits(digits) <==> NoStrayBits(digits[4..]))
    ensures |digits| == 0 ==> NoStrayBits(digits)
    ensures |digits| == 1 ==> !NoStrayBits(digits)
    ensures |digits| == 2 ==> (NoStrayBits(digits) <==> digits[1] % 16 == 0)
    ensures |digits| == 3 ==> (NoStrayBits(digits) <==> digits[2] % 4 == 0)
  {
    if |digits| >= 4 {
      FourLess(|digits|);
      assert |digits| > 4 ==> digits[4..][|digits| - 5] == digits[|digits| - 1];
    }
  }

  lemma FourLess(n: nat)
    requires n >= 4
    ensures (n - 4) % 4 == n % 4
  {}

  lemma StrayInTwo(a: sextet, b: sextet)
    ensures 0 <= Join24(a, b, 0, 0) < 0x100_0000
    ensures var t := Trailing(Join24(a, b, 0, 0))[0];
      0 <= Group(t, 0, 0) < 0x100_0000 && (Leading(Group(t, 0, 0))[..2] == [a, b] <==> b % 16 == 0)
  {
    Rejoin(a, b, 0, 0);
    var t: int := a as int * 4 + b as int / 16;
    Regroup(t, 0, 0);
    hide Leading, Trailing, Group, Join24;
    ModUnique(t, 4, a, b as int / 16);
    assert Leading(Group(t, 0, 0))[..2] == [a, b as int / 16 * 16];
  }

  lemma StrayInThree(a: sextet, b: sextet, c: sextet)
    ensures 0 <= Join24(a, b, c, 0) < 0x100_0000
    ensures var t := Trailing(Join24(a, b, c, 0));
      0 <= Group(t[0], t[1], 0) < 0x100_0000 && (Leading(Group(t[0], t[1], 0))[..3] == [a, b, c] <==> c % 4 == 0)
  {
    hide Leading, Trailing, Group, Join24;
    Rejoin(a, b, c, 0);
    ThreeBack(a, b, c);
    var t := Trailing(Join24(a, b, c, 0));
    var digits := Leading(Group(t[0], t[1], 0));
    assert digits[..3] == [a, b, digits[2]];
    assert digits[..3] == [a, b, c] <==> digits[2] == c;
    LastWhole(c, 4);
  }

  lemma LastWhole(digit: sextet, m: int)
    requires m > 0
    ensures digit / m * m == digit <==> digit % m == 0
  {}

  lemma ThreeBack(a: sextet, b: sextet, c: sextet)
    ensures var t, u := a as int * 4 + b as int / 16, b as int % 16 * 16 + c as int / 4;
      0 <= Group(t, u, 0) < 0x100_0000 && Leading(Group(t, u, 0)) == [a, b, c as int / 4 * 4, 0]
  {
    var t, u := a as int * 4 + b as int / 16, b as int % 16 * 16 + c as int / 4;
    var d: int := c as int / 4 * 4;
    assert Group(t, u, 0) == Join24(a, b, d, 0);
    LeadingUnique(a, b, d, 0);
  }

  // The one-pass encoder

  const UPPER := "ABCDEFGHIJKLMNOPQRSTUVWXYZ"
  const LOWER := "abcdefghijklmnopqrstuvwxyz"
  const DIGITS := "0123456789"
  const BASE64URL_ALPHABET: string := UPPER + LOWER + DIGITS + "-_"

  lemma UpperSpells(i: nat)
    requires i < 26
    ensures |UPPER| == 26 && UPPER[i] as int == 65 + i
  {}

  lemma LowerSpells(i: nat)
    requires i < 26
    ensures |LOWER| == 26 && LOWER[i] as int == 97 + i
  {}

  lemma AlphabetSpells(digit: sextet)
    ensures |BASE64URL_ALPHABET| == 64 && UnitOf(BASE64URL_ALPHABET[digit]) == Spelled(UrlSafe, digit)
  {
    UpperSpells(if digit < 26 then digit else 0);
    LowerSpells(if 26 <= digit < 52 then digit - 26 else 0);
    hide UPPER, LOWER;
  }

  /** `BASE64URL_ALPHABET.charAt((group >> shift) & 63)`. */
  function CharAt(group: int, shift: nat): Text
    requires 0 <= group < 0x100_0000 && shift < 32
  {
    var index := JsBitwise(And, JsShiftRight(group, shift), 63);
    if 0 <= index < |BASE64URL_ALPHABET| then [UnitOf(BASE64URL_ALPHABET[index])] else []
  }

  lemma CharAtSpells(group: int, shift: nat)
    requires 0 <= group < 0x100_0000 && shift < 32
    ensures 0 <= group / Pow2(shift) % 64 < 64
    ensures CharAt(group, shift) == [Spelled(UrlSafe, group / Pow2(shift) % 64)]
  {
    hide Pow2, Bitwise, Spelled, BASE64URL_ALPHABET;
    var a := JsShiftRight(group, shift);
    MaskKeepsSix(a);
    AlphabetSpells(a % 64);
  }

  lemma MaskKeepsSix(a: nat)
    requires a < 0x1_0000_0000
    ensures JsBitwise(And, a, 63) == a % 64
  {
    MaskIsMod(a, 6);
    Pow2Small();
    hide Pow2, Bitwise;
    SmallBitwise(And, a, 63);
  }

  lemma SmallBitwise(op: BitOp, a: nat, b: nat)
    requires a < 0x1_0000_0000 && b < 0x1_0000_0000 && Bitwise(op, a, b) < 0x8000_0000
    ensures JsBitwise(op, a, b) == Bitwise(op, a, b)
  {
    hide Bitwise;
  }

  lemma Pow2Small()
    ensures Pow2(0) == 1 && Pow2(6) == 64 && Pow2(8) == 256 && Pow2(12) == 4096 && Pow2(16) == 65536 && Pow2(18) == 262144
  {
    assert Pow2(4) == 16;
    assert Pow2(10) == 1024;
    assert Pow2(14) == 16384;
  }

  lemma {:induction false} OrCommutes(a: nat, b: nat)
    ensures Bitwise(Or, a, b) == Bitwise(Or, b, a)
    decreases a + b
  {
    if a != 0 || b != 0 {
      OrCommutes(a / 2, b / 2);
    }
  }

  /** `high << k | low`. */
  lemma OrJoins(high: nat, low: nat, k: nat)
    requires k < 32 && low < Pow2(k) && 0 <= high * Pow2(k) && high * Pow2(k) + low < 0x100_0000
    ensures JsBitwise(Or, high * Pow2(k), low) == high * Pow2(k) + low
  {
    OrCommutes(high * Pow2(k), low);
    OrIsPlus(low, high, k);
    hide Pow2, Bitwise;
    SmallBitwise(Or, high * Pow2(k), low);
  }

  lemma ShiftsByte(a: byte)
    ensures JsShiftLeft(a, 16) == a * 65536 && JsShiftLeft(a, 8) == a * 256
  {
    hide Pow2;
    Pow2Small();
    assert ToInt32(a) == a;
  }

  /** The shifts and ors join the bytes of a group. */
  lemma ShiftsJoin(a: byte, b: byte, c: byte)
    ensures JsShiftLeft(a, 16) == Group(a, 0, 0)
    ensures JsBitwise(Or, JsShiftLeft(a, 16), JsShiftLeft(b, 8)) == Group(a, b, 0)
    ensures JsBitwise(Or, JsBitwise(Or, JsShiftLeft(a, 16), JsShiftLeft(b, 8)), c) == Group(a, b, c)
  {
    hide Pow2, JsBitwise, JsShiftLeft;
    Pow2Small();
    ShiftsByte(a);
    ShiftsByte(b);
    OrJoins(a, b as int * 256, 16);
    OrJoins(a as int * 256 + b as int, c, 8);
  }

  lemma LeadingSpelled(group: int)
    requires 0 <= group < 0x100_0000
    ensures CharAt(group, 18) + CharAt(group, 12) + CharAt(group, 6) + CharAt(group, 0) == Spell(UrlSafe, Leading(group))
    ensures CharAt(group, 18) + CharAt(group, 12) + CharAt(group, 6) == Spell(UrlSafe, Leading(group)[..3])
    ensures CharAt(group, 18) + CharAt(group, 12) == Spell(UrlSafe, Leading(group)[..2])
  {
    hide CharAt, Pow2, Spelled;
    Pow2Small();
    CharAtSpells(group, 18);
    CharAtSpells(group, 12);
    CharAtSpells(group, 6);
    CharAtSpells(group, 0);
    assert group / 1 == group;
    assert group / 262144 % 64 == group / 262144;
  }

  /** `toBase64Url`. */
  method ToBase64Url(bytes: seq<byte>) returns (out: Text)
    ensures out == Encode(bytes)
  {
    hide CharAt, Leading, Group, Spelled, JsBitwise, JsShiftLeft;
    out := [];
    var index := 0;
    var lastTriple := |bytes| - 2;
    while index < lastTriple
      invariant 0 <= index <= |bytes|
      invariant out + Encode(bytes[index..]) == Encode(bytes)
    {
      var triple := JsBitwise(Or, JsBitwise(Or, JsShiftLeft(bytes[index], 16), JsShiftLeft(bytes[index + 1], 8)), bytes[index + 2]);
      ShiftsJoin(bytes[index], bytes[index + 1], bytes[index + 2]);
      BytesBack(bytes[index], bytes[index + 1], bytes[index + 2]);
      LeadingSpelled(triple);
      EncodeStep(bytes, index);
      out := out + (CharAt(triple, 18) + CharAt(triple, 12) + CharAt(triple, 6) + CharAt(triple, 0));
      index := index + 3;
    }
    var remaining := |bytes| - index;
    if remaining == 1 {
      var tail := JsShiftLeft(bytes[index], 16);
      ShiftsJoin(bytes[index], 0, 0);
      BytesBack(bytes[index], 0, 0);
      LeadingSpelled(tail);
      out := out + (CharAt(tail, 18) + CharAt(tail, 12));
    } else if remaining == 2 {
      var tail := JsBitwise(Or, JsShiftLeft(bytes[index], 16), JsShiftLeft(bytes[index + 1], 8));
      ShiftsJoin(bytes[index], bytes[index + 1], 0);
      BytesBack(bytes[index], bytes[index + 1], 0);
      LeadingSpelled(tail);
      out := out + (CharAt(tail, 18) + CharAt(tail, 12) + CharAt(tail, 6));
    }
  }

  lemma EncodeStep(bytes: seq<byte>, i: nat)
    requires i + 2 < |bytes| && 0 <= Group(bytes[i], bytes[i + 1], bytes[i + 2]) < 0x100_0000
    ensures Encode(bytes[i..]) == Spell(UrlSafe, Leading(Group(bytes[i], bytes[i + 1], bytes[i + 2]))) + Encode(bytes[i + 3..])
  {
    hide Leading, Group, Spelled;
    assert bytes[i..][3..] == bytes[i + 3..];
    SpellAppend(UrlSafe, Leading(Group(bytes[i], bytes[i + 1], bytes[i + 2])), Sextets(bytes[i + 3..]));
  }

  // The chunked encoder

  /** `String.fromCharCode(...bytes)`. */
  function FromCharCodes(bytes: seq<byte>): (text: Text)
    ensures |text| == |bytes| && forall i | 0 <= i < |text| :: text[i] as int == bytes[i]
  {
    seq(|bytes|, i requires 0 <= i < |bytes| => bytes[i] as int as unit)
  }

  /** The bytes of a binary string. */
  function Latin1(text: Text): (bytes: seq<byte>)
    requires forall i | 0 <= i < |text| :: text[i] < 256
    ensures |bytes| == |text| && forall i | 0 <= i < |text| :: bytes[i] == text[i] as int
  {
    seq(|text|, i requires 0 <= i < |text| => text[i] as int)
  }

  /** The host's `btoa`: it throws on a character above 255. */
  function Btoa(binary: Text): Option<Text> {
    if forall i | 0 <= i < |binary| :: binary[i] < 256 then Some(EncodePadded(Latin1(binary))) else None
  }

  /** `toBase64`: the binary string is gathered chunk by chunk, and `btoa` never throws on it. */
  method ToBase64(bytes: seq<byte>) returns (out: Text)
    ensures out == EncodePadded(bytes)
  {
    hide EncodePadded;
    var binary: Text := [];
    var chunk := 0x8000;
    var index := 0;
    while index < |bytes|
      invariant index % 0x8000 == 0
      invariant binary == FromCharCodes(if index <= |bytes| then bytes[..index] else bytes)
    {
      var end := if index + chunk <= |bytes| then index + chunk else |bytes|;
      binary := binary + FromCharCodes(bytes[index..end]);
      index := index + chunk;
    }
    assert Latin1(binary) == bytes;
    out := Btoa(binary).value;
  }

  // Decoding

  function ValueOf(c: unit): Option<sextet> {
    if 65 <= c <= 90 then Some(c as int - 65)
    else if 97 <= c <= 122 then Some(c as int - 71)
    else if 48 <= c <= 57 then Some(c as int + 4)
    else if c == 43 then Some(62)
    else if c == 47 then Some(63)
    else None
  }

  predicate AsciiSpace(c: unit) {
    c == 9 || c == 10 || c == 12 || c == 13 || c == 32
  }

  function WithoutSpace(text: Text): Text {
    if text == [] then []
    else if AsciiSpace(text[0]) then WithoutSpace(text[1..])
    else [text[0]] + WithoutSpace(text[1..])
  }

  /** Up to two `=` come off the end of a text of whole groups. */
  function Unpadded(text: Text): Text {
    if |text| % 4 != 0 || text == [] || text[|text| - 1] != PAD then text
    else if text[|text| - 2] != PAD then text[..|text| - 1]
    else text[..|text| - 2]
  }

  /** The digits a text spells in the standard alphabet, if all its characters are in it. */
  function Read(text: Text): Option<seq<sextet>> {
    if text == [] then Some([])
    else
      match (ValueOf(text[0]), Read(text[1..]))
      case (Some(digit), Some(rest)) => Some([digit] + rest)
      case _ => None
  }

  /** The host's `atob`, the forgiving decoder of the WHATWG Infra standard; `None` when it throws. */
  function Atob(text: Text): Option<seq<byte>> {
    var data := Unpadded(WithoutSpace(text));
    if |data| % 4 == 1 then None
    else
      match Read(data)
      case None => None
      case Some(digits) => Some(Octets(digits))
  }

  /** `fromBase64`: the decoded characters are copied into a byte array one by one. */
  method FromBase64(base64: Text) returns (result: Option<seq<byte>>)
    ensures result == Atob(base64)
  {
    hide Octets, Read, Unpadded, WithoutSpace;
    match Atob(base64)
    case None => result := None;
    case Some(decoded) =>
      var binary := FromCharCodes(decoded);
      var bytes := new byte[|binary|](_ => 0);
      for index := 0 to |binary|
        invariant forall i :: 0 <= i < index ==> bytes[i] == decoded[i]
      {
        bytes[index] := binary[index] as int % 256;
      }
      assert |bytes[..]| == |decoded|;
      assert forall i :: 0 <= i < |decoded| ==> bytes[..][i] == decoded[i];
      assert bytes[..] == decoded;
      result := Some(bytes[..]);
  }

  function Repeat(c: unit, n: nat): (t: Text)
    ensures |t| == n && forall i | 0 <= i < n :: t[i] == c
  {
    seq(n, _ => c)
  }

  /** What `fromBase64Url` hands to `fromBase64`. */
  function Restored(value: Text): Text {
    var restored := ReplaceAll(ReplaceAll(value, [45], [43]), [95], [47]);
    restored + Repeat(PAD, (4 - |restored| % 4) % 4)
  }

  /** `fromBase64Url`. */
  function FromBase64Url(value: Text): Option<seq<byte>> {
    Atob(Restored(value))
  }

  // Round trips

  function Swapped(text: Text, from: unit, to: unit): (t: Text)
    ensures |t| == |text| && forall i | 0 <= i < |t| :: t[i] == if text[i] == from then to else text[i]
  {
    seq(|text|, i requires 0 <= i < |text| => if text[i] == from then to else text[i])
  }

  /** Replacing one character by one is a substitution. */
  lemma {:induction false} ReplaceOne(text: Text, from: unit, to: unit)
    ensures ReplaceAll(text, [from], [to]) == Swapped(text, from, to)
    decreases |text|
  {
    hide ReplaceAll, IndexOf;
    var at := IndexOf(text, [from]);
    ReplaceFirst(text, from, to);
    if at == -1 {
      NowhereBefore(text, from, |text|);
    } else {
      NowhereBefore(text, from, at);
      hide At;
      ReplaceOne(text[at + 1..], from, to);
      var rest := Swapped(text[at + 1..], from, to);
      assert text[..at] + [to] + rest == Swapped(text, from, to);
    }
  }

  lemma ReplaceFirst(text: Text, from: unit, to: unit)
    ensures var at := IndexOf(text, [from]);
      if at == -1 then ReplaceAll(text, [from], [to]) == text
      else at < |text| && text[at] == from && ReplaceAll(text, [from], [to]) == text[..at] + [to] + ReplaceAll(text[at + 1..], [from], [to])
  {
    var at := IndexOf(text, [from]);
    hide IndexOf;
    if at != -1 {
      assert text[at..at + 1][0] == text[at];
    }
  }

  lemma NowhereBefore(text: Text, c: unit, n: nat)
    requires n <= |text| && forall i | 0 <= i < n :: !At(text, [c], i)
    ensures forall i | 0 <= i < n :: text[i] != c
  {
    forall i | 0 <= i < n ensures text[i] != c {
      assert !At(text, [c], i);
      assert text[i..i + 1] == [text[i]];
    }
  }

  lemma SpelledFacts(digit: sextet)
    ensures ValueOf(Spelled(Standard, digit)) == Some(digit)
    ensures var c := Spelled(UrlSafe, digit); var d := if c == 45 then 43 else c; (if d == 95 then 47 else d) == Spelled(Standard, digit)
    ensures var c := Spelled(Standard, digit); var d := if c == 43 then 45 else c; (if d == 47 then 95 else d) == Spelled(UrlSafe, digit)
    ensures !AsciiSpace(Spelled(Standard, digit)) && Spelled(Standard, digit) != PAD
    ensures InUrlAlphabet(Spelled(UrlSafe, digit))
  {}

  /** Letters, digits, `-` and `_`. */
  predicate InUrlAlphabet(c: unit) {
    65 <= c <= 90 || 97 <= c <= 122 || 48 <= c <= 57 || c == 45 || c == 95
  }

  lemma {:induction false} ReadSpell(digits: seq<sextet>)
    ensures Read(Spell(Standard, digits)) == Some(digits)
  {
    if digits != [] {
      var text := Spell(Standard, digits);
      SpelledFacts(digits[0]);
      hide Spelled, ValueOf;
      assert text[1..] == Spell(Standard, digits[1..]);
      ReadSpell(digits[1..]);
      assert text[0] == Spelled(Standard, digits[0]);
      assert [digits[0]] + digits[1..] == digits;
    }
  }

  lemma {:induction false} NoSpaceStays(text: Text)
    requires forall i | 0 <= i < |text| :: !AsciiSpace(text[i])
    ensures WithoutSpace(text) == text
  {
    if text != [] {
      NoSpaceStays(text[1..]);
    }
  }

  /** `atob` reads back any digits padded to whole groups, stray bits and all. */
  lemma AtobSpelled(digits: seq<sextet>, pads: nat)
    requires |digits| % 4 != 1 && pads == (4 - |digits| % 4) % 4
    ensures Atob(Spell(Standard, digits) + Repeat(PAD, pads)) == Some(Octets(digits))
  {
    hide Spelled, Octets, Read, AsciiSpace, ValueOf, WithoutSpace, Unpadded;
    ReadSpell(digits);
    CleanStays(digits, pads);
    DropsPads(digits, pads);
  }

  lemma CleanStays(digits: seq<sextet>, pads: nat)
    ensures var padded := Spell(Standard, digits) + Repeat(PAD, pads); WithoutSpace(padded) == padded
  {
    hide Spelled, WithoutSpace;
    var padded := Spell(Standard, digits) + Repeat(PAD, pads);
    forall i | 0 <= i < |padded| ensures !AsciiSpace(padded[i]) {
      if i < |digits| {
        SpelledFacts(digits[i]);
      }
    }
    NoSpaceStays(padded);
  }

  lemma DropsPads(digits: seq<sextet>, pads: nat)
    requires |digits| % 4 != 1 && pads == (4 - |digits| % 4) % 4
    ensures Unpadded(Spell(Standard, digits) + Repeat(PAD, pads)) == Spell(Standard, digits)
  {
    hide Spelled, Unpadded;
    if digits != [] {
      SpelledFacts(digits[|digits| - 1]);
    }
    StripsPads(Spell(Standard, digits), pads);
  }

  lemma StripsPads(text: Text, pads: nat)
    requires |text| % 4 != 1 && pads == (4 - |text| % 4) % 4 && (text != [] ==> text[|text| - 1] != PAD)
    ensures Unpadded(text + Repeat(PAD, pads)) == text
  {
    var padded := text + Repeat(PAD, pads);
    assert padded[..|text|] == text;
    assert |padded| % 4 == 0 && pads <= 2;
  }

  lemma RestoredSpell(digits: seq<sextet>)
    ensures Restored(Spell(UrlSafe, digits)) == Spell(Standard, digits) + Repeat(PAD, (4 - |digits| % 4) % 4)
  {
    var value := Spell(UrlSafe, digits);
    ReplaceOne(value, 45, 43);
    ReplaceOne(Swapped(value, 45, 43), 95, 47);
    hide ReplaceAll, Spelled;
    forall i | 0 <= i < |digits|
      ensures Swapped(Swapped(value, 45, 43), 95, 47)[i] == Spelled(Standard, digits[i])
    {
      SpelledFacts(digits[i]);
    }
    assert Swapped(Swapped(value, 45, 43), 95, 47) == Spell(Standard, digits);
  }

  /** Decoding undoes the one-pass encoder on every byte string. */
  lemma RoundTrip(bytes: seq<byte>)
    ensures FromBase64Url(Encode(bytes)) == Some(bytes)
    ensures Atob(EncodePadded(bytes)) == Some(bytes)
  {
    hide *;
    OctetsOfSextets(bytes);
    RestoredSpell(Sextets(bytes));
    NotOneOver(|bytes|);
    AtobSpelled(Sextets(bytes), (4 - |Sextets(bytes)| % 4) % 4);
    EncodeIs(bytes);
    FromIs(Encode(bytes));
  }

  lemma NotOneOver(n: nat)
    ensures (4 * n + 2) / 3 % 4 != 1
  {
    var q, r := n / 3, n % 3;
    assert (4 * n + 2) / 3 == 4 * q + (4 * r + 2) / 3;
  }

  lemma EncodeIs(bytes: seq<byte>)
    ensures Encode(bytes) == Spell(UrlSafe, Sextets(bytes))
    ensures EncodePadded(bytes) == Spell(Standard, Sextets(bytes)) + Padding(Sextets(bytes))
    ensures |Sextets(bytes)| % 4 != 1 ==> Padding(Sextets(bytes)) == Repeat(PAD, (4 - |Sextets(bytes)| % 4) % 4)
  {
    hide Sextets, Spelled;
  }

  lemma FromIs(value: Text)
    ensures FromBase64Url(value) == Atob(Restored(value))
  {
    hide Atob, Restored;
  }

  /** Decoding a text in the URL alphabet and encoding again gives the text exactly when it sets no stray bit: two
      texts that differ only there decode to the same bytes. */
  lemma ReencodeExact(digits: seq<sextet>)
    ensures var text := Spell(UrlSafe, digits);
      FromBase64Url(text).Some? <==> |digits| % 4 != 1
    ensures var text := Spell(UrlSafe, digits);
      FromBase64Url(text).Some? ==> FromBase64Url(text) == Some(Octets(digits)) && (Encode(Octets(digits)) == text <==> NoStrayBits(digits))
  {
    hide Atob, Restored, Octets, Sextets, NoStrayBits, Spelled;
    RestoredSpell(digits);
    if |digits| % 4 == 1 {
      AtobTooMuch(digits);
    } else {
      AtobSpelled(digits, (4 - |digits| % 4) % 4);
      SextetsOfOctets(digits);
      SpellInjective(Sextets(Octets(digits)), digits);
    }
  }

  lemma AtobTooMuch(digits: seq<sextet>)
    requires |digits| % 4 == 1
    ensures Atob(Spell(Standard, digits) + Repeat(PAD, 3)) == None
  {
    hide Spelled, Read, Octets, WithoutSpace;
    var text := Spell(Standard, digits);
    CleanStays(digits, 3);
    assert Unpadded(text + Repeat(PAD, 3)) == text + [PAD];
    ReadStops(text, PAD);
  }

  lemma {:induction false} ReadStops(text: Text, c: unit)
    requires ValueOf(c) == None
    ensures Read(text + [c]) == None
  {
    if text != [] {
      assert (text + [c])[1..] == text[1..] + [c];
      ReadStops(text[1..], c);
    }
  }

  lemma SpellInjective(a: seq<sextet>, b: seq<sextet>)
    ensures Spell(UrlSafe, a) == Spell(UrlSafe, b) <==> a == b
  {
    if Spell(UrlSafe, a) == Spell(UrlSafe, b) {
      forall i | 0 <= i < |a| ensures a[i] == b[i] {
        assert Spell(UrlSafe, a)[i] == Spell(UrlSafe, b)[i];
      }
    }
  }

  /** The one-pass encoder is the chunked one with the two alphabet characters swapped and the padding gone. */
  lemma RemapAgrees(bytes: seq<byte>)
    ensures var remapped := ReplaceAll(ReplaceAll(EncodePadded(bytes), [43], [45]), [47], [95]);
      ReplaceAll(remapped, [PAD], []) == Encode(bytes)
  {
    hide ReplaceAll, Spelled, Sextets, EncodePadded, Encode;
    var digits := Sextets(bytes);
    var padded := EncodePadded(bytes);
    EncodeIs(bytes);
    ReplaceOne(padded, 43, 45);
    ReplaceOne(Swapped(padded, 43, 45), 47, 95);
    RemapSpells(digits, Padding(digits));
    UrlHasNoPad(digits);
    StripPads(Spell(UrlSafe, digits), Padding(digits));
  }

  lemma RemapSpells(digits: seq<sextet>, pads: Text)
    requires forall i | 0 <= i < |pads| :: pads[i] == PAD
    ensures Swapped(Swapped(Spell(Standard, digits) + pads, 43, 45), 47, 95) == Spell(UrlSafe, digits) + pads
  {
    hide Spelled;
    var remapped := Swapped(Swapped(Spell(Standard, digits) + pads, 43, 45), 47, 95);
    forall i | 0 <= i < |digits| ensures remapped[i] == Spell(UrlSafe, digits)[i] {
      SpelledFacts(digits[i]);
    }
  }

  lemma UrlHasNoPad(digits: seq<sextet>)
    ensures PAD !in Spell(UrlSafe, digits)
  {
    hide Spelled;
    forall i | 0 <= i < |digits| ensures Spell(UrlSafe, digits)[i] != PAD {
      SpelledFacts(digits[i]);
    }
  }

  lemma {:induction false} StripPads(text: Text, pads: Text)
    requires PAD !in text && forall i | 0 <= i < |pads| :: pads[i] == PAD
    ensures ReplaceAll(text + pads, [PAD], []) == text
    decreases |pads|
  {
    var all := text + pads;
    forall i | 0 <= i < |text| ensures !At(all, [PAD], i) {
      assert all[i..i + 1] == [text[i]];
    }
    if pads == [] {
      assert forall i | 0 <= i :: !At(all, [PAD], i);
    } else {
      assert all[|text|..|text| + 1] == [PAD];
      assert At(all, [PAD], |text|);
      StripPads([], pads[1..]);
      assert all[|text| + 1..] == [] + pads[1..];
    }
  }

  /** Length and alphabet of the encoding: the ceiling of 4n/3 characters, each a letter, a digit, `-` or `_`. */
  lemma EncodeShape(bytes: seq<byte>)
    ensures |Encode(bytes)| == (4 * |bytes| + 2) / 3
    ensures forall i | 0 <= i < |Encode(bytes)| :: InUrlAlphabet(Encode(bytes)[i])
  {
    OctetsOfSextets(bytes);
    hide Sextets, Spelled;
    forall i | 0 <= i < |Encode(bytes)| ensures InUrlAlphabet(Encode(bytes)[i]) {
      SpelledFacts(Sextets(bytes)[i]);
    }
  }
}
