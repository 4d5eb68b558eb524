/** How a key is judged by its words (`classifyKey` of shared/credential-redaction.ts). Cutting a key into words is
    done by regular expressions and is not part of this model. */
module KeyWords {
  import opened JsText

  type Word = string

  datatype KeyClass = CountSecret | NotSecret | ScalarSecret | Secret

  const SENSITIVE_WORDS: set<Word> := {
    "auth", "authorization", "bearer", "card", "cc", "cookie", "credential", "cvc", "cvv", "dsn", "hmac", "hotp",
    "iban", "jwt", "kek", "mnemonic", "otp", "pass", "passcode", "passphrase", "passwd", "password", "pem", "pin",
    "pwd", "salt", "secret", "session", "sid", "sig", "signature", "ssn", "token", "totp", "verifier"}

  const SCALAR_ONLY_WORDS: set<Word> := {"card", "pass", "pin", "session"}

  const KEY_QUALIFIERS: set<Word> := {
    "access", "api", "client", "encryption", "master", "priv", "private", "secret", "signing"}

  const CODE_QUALIFIERS: set<Word> := {
    "2fa", "auth", "authorization", "backup", "factor", "hotp", "mfa", "otp", "pin", "recovery", "reset", "security",
    "totp", "verification", "verify"}

  const COMPOUND_CREDENTIALS: set<Word> := {"card no", "connection string", "database url", "one time"}

  const CONCATENATED_SUFFIXES: set<Word> := {
    "accesskey", "apikey", "authorization", "cookie", "credential", "mfacode", "otpcode", "passcode", "passphrase",
    "passwd", "password", "privatekey", "secret", "secretkey", "sessionid", "signature", "token"}

  const VALUE_WORDS: set<Word> := {
    "again", "b64", "base", "base64", "bytes", "confirm", "confirmation", "data", "digest", "encrypted", "hash",
    "hashed", "header", "hex", "id", "input", "key", "no", "num", "number", "plain", "plaintext", "raw", "repeat",
    "str", "string", "text", "value"}

  const COUNT_LAST_WORDS: set<Word> := {"count", "counts", "length", "limit", "limits", "size", "tokens", "total", "usage"}

  const COUNT_FIRST_WORDS: set<Word> := {"max", "min", "num", "total"}

  predicate EndsWith(word: Word, suffix: Word) {
    |suffix| <= |word| && word[|word| - |suffix|..] == suffix
  }

  function Singular(word: Word): Word {
    if |word| > 3 && EndsWith(word, "s") && !EndsWith(word, "ss") then word[..|word| - 1] else word
  }

  /** `sensitiveWordAt`. */
  function SensitiveWordAt(words: seq<Word>, index: nat): Option<Word>
    requires index < |words|
  {
    var word := Singular(words[index]);
    var previous := if index > 0 then Some(Singular(words[index - 1])) else None;
    if word in SENSITIVE_WORDS then Some(word)
    else if previous.Some? && word == "key" && previous.value in KEY_QUALIFIERS then Some("key")
    else if previous.Some? && word == "code" && previous.value in CODE_QUALIFIERS then Some("code")
    else if previous.Some? && previous.value + " " + word in COMPOUND_CREDENTIALS then Some(previous.value + " " + word)
    else if exists suffix | suffix in CONCATENATED_SUFFIXES :: EndsWith(word, suffix) then Some(word)
    else None
  }

  predicate IsCount(words: seq<Word>)
    requires words != []
  {
    words[|words| - 1] in COUNT_LAST_WORDS || words[0] in COUNT_FIRST_WORDS
  }

  /** The word that decides a key: its last sensitive one. */
  ghost predicate Decides(words: seq<Word>, index: nat) {
    index < |words| && SensitiveWordAt(words, index).Some?
    && forall i | index < i < |words| :: SensitiveWordAt(words, i).None?
  }

  ghost predicate Harmless(words: seq<Word>) {
    forall i | 0 <= i < |words| :: SensitiveWordAt(words, i).None?
  }

  /** The words after the deciding one name the credential itself. */
  predicate OnlyValueWords(words: seq<Word>) {
    forall i | 0 <= i < |words| :: words[i] in VALUE_WORDS
  }

  /** What a class says about the words. */
  ghost predicate Judged(words: seq<Word>, kind: KeyClass) {
    (Harmless(words) && kind.NotSecret?) || exists index :: DecidedBy(words, index, kind)
  }

  ghost predicate DecidedBy(words: seq<Word>, index: nat, kind: KeyClass) {
    Decides(words, index)
    && kind == if IsCount(words) then CountSecret
               else if !OnlyValueWords(words[index + 1..]) then NotSecret
               else if SensitiveWordAt(words, index).value in SCALAR_ONLY_WORDS && index == |words| - 1 then ScalarSecret
               else Secret
  }

  /** `classifyKey` from the words on. */
  method ClassifyWords(words: seq<Word>) returns (kind: KeyClass)
    ensures Judged(words, kind)
  {
    hide SensitiveWordAt, IsCount, OnlyValueWords;
    if words == [] {
      return NotSecret;
    }
    var isCount := IsCount(words);
    var index := |words| - 1;
    while index >= 0
      invariant -1 <= index < |words|
      invariant forall i | index < i < |words| :: SensitiveWordAt(words, i).None?
    {
      var sensitive := SensitiveWordAt(words, index);
      if sensitive.Some? {
        if isCount {
          kind := CountSecret;
        } else if !OnlyValueWords(words[index + 1..]) {
          kind := NotSecret;
        } else if sensitive.value in SCALAR_ONLY_WORDS && index == |words| - 1 {
          kind := ScalarSecret;
        } else {
          kind := Secret;
        }
        assert DecidedBy(words, index, kind);
        return;
      }
      index := index - 1;
    }
    kind := NotSecret;
  }

  /** The words of a key have one class. */
  lemma JudgedOnce(words: seq<Word>, a: KeyClass, b: KeyClass)
    requires Judged(words, a) && Judged(words, b)
    ensures a == b
  {
    hide SensitiveWordAt, IsCount, OnlyValueWords, SCALAR_ONLY_WORDS;
    if !Harmless(words) {
      var i :| DecidedBy(words, i, a);
      var j :| DecidedBy(words, j, b);
      assert i == j;
    }
  }

  lemma SensitiveStays(words: seq<Word>, word: Word, i: nat)
    requires i < |words|
    ensures SensitiveWordAt(words + [word], i) == SensitiveWordAt(words, i)
  {
    hide SENSITIVE_WORDS, KEY_QUALIFIERS, CODE_QUALIFIERS, COMPOUND_CREDENTIALS, CONCATENATED_SUFFIXES, Singular, EndsWith;
    assert (words + [word])[i] == words[i];
    assert i > 0 ==> (words + [word])[i - 1] == words[i - 1];
  }

  /** One more word after a credential: a word that can name the credential's value keeps it secret, a measure makes
      it a count, and any other word names something about it (`passwordHash`, `passwordLength`, `passwordChangedAt`). */
  lemma OneMoreWord(words: seq<Word>, word: Word, before: KeyClass, after: KeyClass)
    requires Judged(words, before) && (before.Secret? || before.ScalarSecret?)
    requires SensitiveWordAt(words + [word], |words|).None? && Judged(words + [word], after)
    ensures after == if word in COUNT_LAST_WORDS then CountSecret else if word in VALUE_WORDS then Secret else NotSecret
  {
    hide SensitiveWordAt, SCALAR_ONLY_WORDS, COUNT_LAST_WORDS, COUNT_FIRST_WORDS, VALUE_WORDS, OnlyValueWords, IsCount;
    var longer := words + [word];
    forall i | 0 <= i < |words| ensures SensitiveWordAt(longer, i) == SensitiveWordAt(words, i) {
      SensitiveStays(words, word, i);
    }
    var index :| DecidedBy(words, index, before);
    assert Decides(longer, index);
    OneMoreCounts(words, word);
    OneMoreNames(words, word, index);
    var kind := if word in COUNT_LAST_WORDS then CountSecret else if word in VALUE_WORDS then Secret else NotSecret;
    assert DecidedBy(longer, index, kind);
    JudgedOnce(longer, kind, after);
  }

  lemma OneMoreCounts(words: seq<Word>, word: Word)
    requires words != [] && !IsCount(words)
    ensures IsCount(words + [word]) <==> word in COUNT_LAST_WORDS
  {
    hide COUNT_LAST_WORDS, COUNT_FIRST_WORDS;
    assert (words + [word])[0] == words[0];
  }

  lemma OneMoreNames(words: seq<Word>, word: Word, index: nat)
    requires index < |words| && OnlyValueWords(words[index + 1..])
    ensures OnlyValueWords((words + [word])[index + 1..]) <==> word in VALUE_WORDS
  {
    hide VALUE_WORDS;
    var rest := (words + [word])[index + 1..];
    assert rest == words[index + 1..] + [word];
    assert rest[|rest| - 1] == word;
  }
}
