/** Signing and verifying a canonical text (shared/hmac-url.ts), with HMAC itself left to the caller, and the times
    and printed numbers such texts carry. Secrets and texts reach HMAC as their UTF-8 bytes. */
module Hmac {
  import Base64
  import Fips180
  import opened JsNumber
  import opened JsText
  import Utf8

  const DOT: unit := 46

  /** An HMAC-SHA256. */
  type Mac = m: seq<byte> | |m| == 32 witness seq(32, _ => 0)

  /** A key as HMAC uses it: one block of bytes (section 4, steps 1 to 3, of FIPS 198-1). */
  type Key = k: seq<byte> | |k| == 64 witness seq(64, _ => 0)

  type Signer = (Key, seq<byte>) -> Mac
  type Verifier = (Key, seq<byte>, seq<byte>) -> bool

  /** `importHmacKey`. */
  function KeyOf(secret: Text): Key {
    var raw := Utf8.Encode(secret);
    var short := if |raw| > 64 then Fips180.Sha256(raw) else raw;
    short + Fips180.Zeros(64 - |short|)
  }

  /** `signCanonical`. */
  function SignCanonical(sign: Signer, secret: Text, message: Text): (signature: Text)
    ensures |signature| == 43 && forall i | 0 <= i < |signature| :: Base64.InUrlAlphabet(signature[i])
  {
    var mac := sign(KeyOf(secret), Utf8.Encode(message));
    Base64.EncodeShape(mac);
    Base64.Encode(mac)
  }

  /** `verifyCanonical` on a signature as text: one that is not base64 is refused. */
  predicate VerifyText(verify: Verifier, secret: Text, message: Text, signature: Text) {
    match Base64.FromBase64Url(signature)
    case None => false
    case Some(bytes) => verify(KeyOf(secret), Utf8.Encode(message), bytes)
  }

  /** The text of a signature verifies for a message just when its bytes do. */
  lemma SignedVerifies(sign: Signer, verify: Verifier, signer: Text, signed: Text, secret: Text, message: Text)
    ensures VerifyText(verify, secret, message, SignCanonical(sign, signer, signed))
      <==> verify(KeyOf(secret), Utf8.Encode(message), sign(KeyOf(signer), Utf8.Encode(signed)))
  {
    hide Base64.FromBase64Url, Base64.Encode, KeyOf, Utf8.Encode;
    Base64.RoundTrip(sign(KeyOf(signer), Utf8.Encode(signed)));
  }

  /** What has been signed with which key. */
  type Signed = set<(Key, seq<byte>)>

  /** An ideal MAC: under this key, only what was signed verifies. */
  ghost predicate Ideal(verify: Verifier, key: Key, signed: Signed) {
    forall message, mac | verify(key, message, mac) :: (key, message) in signed
  }

  // Times

  /** An epoch time in milliseconds that `Date` can hold. */
  type time = t: nat | t <= 8_640_000_000_000_000

  /** `String` of a whole number. */
  function Printed(n: int): (text: Text)
    ensures text != [] && DOT !in text && forall i | 0 <= i < |text| :: text[i] == 45 || 48 <= text[i] <= 57
  {
    if n < 0 then [45] + Digits(-n) else Digits(n)
  }

  /** `Number` (`None` where it is not finite) reads back what `String` printed, as far as doubles are exact. */
  ghost predicate ReadsPrinted(number: Text -> Option<real>) {
    forall n: int | -MAX_SAFE_INTEGER <= n <= MAX_SAFE_INTEGER :: number(Printed(n)) == Some(n as real)
  }

  function Pow10(k: nat): (p: nat)
    ensures p > 0
  {
    if k == 0 then 1 else 10 * Pow10(k - 1)
  }

  lemma {:induction false} DigitsAtMost(n: nat, k: nat)
    requires k > 0 && n < Pow10(k)
    ensures |Digits(n)| <= k
  {
    if n >= 10 {
      DigitsAtMost(n / 10, k - 1);
    }
  }

  /** An epoch time has at most sixteen digits. */
  lemma TimeDigits(n: nat)
    requires n <= MAX_SAFE_INTEGER
    ensures |Printed(n)| <= 16
  {
    assert Pow10(4) == 10_000;
    assert Pow10(8) == 100_000_000;
    assert Pow10(12) == 1_000_000_000_000;
    assert Pow10(16) == 10_000_000_000_000_000;
    DigitsAtMost(n, 16);
  }

  // Texts cut at dots

  /** A text without the separator is one part, and only such a text is. */
  lemma SplitWhole(x: Text, sep: unit)
    ensures |Split(x, sep)| == 1 <==> sep !in x
    ensures sep !in x ==> Split(x, sep) == [x]
  {
    if sep !in x {
      SplitJoin([x], sep);
    } else {
      JoinSplit(x, sep);
    }
  }

  lemma FirstSeparator(a: Text, x: Text, i: nat)
    requires DOT !in a && i < |a + [DOT] + x| && (a + [DOT] + x)[i] == DOT
    ensures i >= |a|
  {}

  /** What stands before the first dot is determined. */
  lemma DotFreePrefix(a: Text, x: Text, b: Text, y: Text)
    requires DOT !in a && DOT !in b && a + [DOT] + x == b + [DOT] + y
    ensures a == b && x == y
  {
    var s, t := a + [DOT] + x, b + [DOT] + y;
    assert s[|a|] == DOT && t[|b|] == DOT;
    FirstSeparator(a, x, |b|);
    FirstSeparator(b, y, |a|);
    assert s[..|a|] == a && t[..|b|] == b && s[|a| + 1..] == x && t[|b| + 1..] == y;
  }
}
