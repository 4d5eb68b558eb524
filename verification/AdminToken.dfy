/** Named admin tokens, the signals minted in their place (shared/admin-token.ts), and the other texts that may be
    signed under the same root secret: WebSocket sub-tokens, socket bindings and approval tickets. */
module AdminToken {
  import Approval
  import Base64
  import opened Hmac
  import opened JsNumber
  import opened JsText
  import Json
  import Prompt
  import Utf8

  const PREFIX: Text := Lit("lnat")
  const SIGNAL_VERSION: Text := Lit("as1")
  const SOCKET_VERSION: Text := Lit("v1")
  const SIGNAL_TTL_MS: nat := 60_000

  lemma Tags()
    ensures PREFIX == [108, 110, 97, 116] && SIGNAL_VERSION == [97, 115, 49] && SOCKET_VERSION == [118, 49]
    ensures Approval.VERSION == SOCKET_VERSION
  {}

  // Tokens

  predicate NameStart(c: unit) {
    97 <= c <= 122 || 48 <= c <= 57
  }

  /** `ADMIN_TOKEN_NAME_RE`. */
  predicate ValidName(name: Text) {
    1 <= |name| <= 64 && NameStart(name[0]) && forall i | 0 <= i < |name| :: NameStart(name[i]) || name[i] == 45 || name[i] == 95
  }

  /** `ADMIN_TOKEN_SECRET_RE`. */
  predicate ValidSecret(secret: Text) {
    |secret| == 43 && forall i | 0 <= i < |secret| :: Base64.InUrlAlphabet(secret[i])
  }

  datatype Bearer = Bearer(name: Text, secret: Text)

  /** `parseAdminToken`. */
  function Parse(bearer: Text): Option<Bearer> {
    var parts := Split(bearer, DOT);
    if |parts| != 3 || parts[0] != PREFIX then None
    else if ValidName(parts[1]) && ValidSecret(parts[2]) then Some(Bearer(parts[1], parts[2]))
    else None
  }

  function TokenText(name: Text, secret: Text): Text {
    PREFIX + [DOT] + name + [DOT] + secret
  }

  /** `generateAdminToken` on thirty-two random bytes. */
  function Generate(name: Text, random: Mac): (Text, Text) {
    var secret := Base64.Encode(random);
    (secret, TokenText(name, secret))
  }

  /** A text of parts joined by dots is cut at those dots and at the ones inside the parts. */
  lemma CutThree(a: Text, b: Text, c: Text)
    requires DOT !in a && DOT !in c
    ensures Split(a + [DOT] + b + [DOT] + c, DOT) == [a] + Split(b, DOT) + [c]
  {
    SplitAt(a + [DOT] + b, DOT, c);
    SplitAt(a, DOT, b);
    SplitWhole(a, DOT);
    SplitWhole(c, DOT);
  }

  lemma CutFour(a: Text, b: Text, c: Text, d: Text)
    requires DOT !in a && DOT !in b && DOT !in d
    ensures Split(a + [DOT] + b + [DOT] + c + [DOT] + d, DOT) == [a, b] + Split(c, DOT) + [d]
  {
    hide Split;
    CutThree(b, c, d);
    SplitAt(a, DOT, b + [DOT] + c + [DOT] + d);
    assert a + [DOT] + b + [DOT] + c + [DOT] + d == a + [DOT] + (b + [DOT] + c + [DOT] + d);
    SplitWhole(a, DOT);
  }

  lemma ValidHasNoDot(name: Text)
    ensures ValidName(name) ==> DOT !in name
    ensures ValidSecret(name) ==> DOT !in name
  {}

  /** Parsing is the exact inverse of spelling: it yields a name and a secret just when both are well formed and the
      bearer is the token they spell. */
  lemma ParseExact(bearer: Text, name: Text, secret: Text)
    ensures Parse(bearer) == Some(Bearer(name, secret)) <==>
      ValidName(name) && ValidSecret(secret) && bearer == TokenText(name, secret)
  {
    Tags();
    ValidHasNoDot(name);
    ValidHasNoDot(secret);
    hide Lit, ValidName, ValidSecret;
    if ValidName(name) && ValidSecret(secret) && bearer == TokenText(name, secret) {
      CutThree(PREFIX, name, secret);
      SplitWhole(name, DOT);
    }
    if Parse(bearer) == Some(Bearer(name, secret)) {
      JoinSplit(bearer, DOT);
      JoinThree(PREFIX, name, secret);
      assert Split(bearer, DOT) == [PREFIX, name, secret];
    }
  }

  lemma JoinThree(a: Text, b: Text, c: Text)
    ensures Join([a, b, c], [DOT]) == a + [DOT] + b + [DOT] + c
  {
    var parts := [a, b, c];
    assert parts[1..] == [b, c] && parts[1..][1..] == [c];
    assert Join(parts[1..], [DOT]) == b + [DOT] + c;
  }

  /** A generated token parses back to its name and its secret exactly when the name is one a token may have. */
  lemma GeneratedParses(name: Text, random: Mac)
    ensures var (secret, token) := Generate(name, random);
      Parse(token) == if ValidName(name) then Some(Bearer(name, secret)) else None
  {
    var secret := Base64.Encode(random);
    Base64.EncodeShape(random);
    assert ValidSecret(secret);
    ValidHasNoDot(secret);
    Tags();
    hide Lit, ValidName, ValidSecret, Base64.Encode;
    CutThree(PREFIX, name, secret);
    SplitWhole(name, DOT);
  }

  // Signals

  /** `Math.floor(Math.min(now + ADMIN_SIGNAL_TTL_MS, notAfter))`; no `notAfter` is infinity. */
  function SignalExpiry(now: real, notAfter: Option<real>): int {
    var ttl := now + SIGNAL_TTL_MS as real;
    (if notAfter.Some? && notAfter.value < ttl then notAfter.value else ttl).Floor
  }

  function SignalMessage(expiry: Text, name: Text): Text {
    SIGNAL_VERSION + [DOT] + expiry + [DOT] + name
  }

  /** `mintAdminSignal`. */
  function MintSignal(sign: Signer, root: Text, name: Text, now: real, notAfter: Option<real>): Text {
    var canonical := SignalMessage(Printed(SignalExpiry(now, notAfter)), name);
    canonical + [DOT] + SignCanonical(sign, root, canonical)
  }

  /** What verifying depends on: `Number`, HMAC and the clock. */
  datatype Checker = Checker(number: Text -> Option<real>, verify: Verifier, now: real)

  /** `verifyAdminSignal`. */
  function VerifySignal(c: Checker, root: Text, signal: Text): Option<Text> {
    var parts := Split(signal, DOT);
    if root == [] || |parts| != 4 then None
    else if parts[0] != SIGNAL_VERSION || !ValidName(parts[2]) then None
    else if c.number(parts[1]).None? || c.number(parts[1]).value <= c.now || parts[3] == [] then None
    else if VerifyText(c.verify, root, SignalMessage(parts[1], parts[2]), parts[3]) then Some(parts[2])
    else None
  }

  /** A minted signal verifies to its name exactly while the clock is below its expiry, for a name a token may have;
      for any other name it never does. */
  lemma SignalRoundTrip(c: Checker, sign: Signer, root: Text, name: Text, now: real, notAfter: Option<real>)
    requires root != [] && ReadsPrinted(c.number)
    requires var expiry := SignalExpiry(now, notAfter);
      -MAX_SAFE_INTEGER <= expiry <= MAX_SAFE_INTEGER
      && var bytes := Utf8.Encode(SignalMessage(Printed(expiry), name)); c.verify(KeyOf(root), bytes, sign(KeyOf(root), bytes))
    ensures VerifySignal(c, root, MintSignal(sign, root, name, now, notAfter)) ==
      if ValidName(name) && c.now < SignalExpiry(now, notAfter) as real then Some(name) else None
  {
    var expiry := SignalExpiry(now, notAfter);
    var message := SignalMessage(Printed(expiry), name);
    var signature := SignCanonical(sign, root, message);
    assert c.number(Printed(expiry)) == Some(expiry as real);
    hide Lit, ValidName, SignCanonical, VerifyText, Printed, SignalExpiry, KeyOf, Utf8.Encode, VerifySignal, SignalMessage, ReadsPrinted, Split;
    SignedVerifies(sign, c.verify, root, message, root, message);
    SignalParts(Printed(expiry), name, signature);
    SignalJudged(c, root, message + [DOT] + signature, Printed(expiry), name, signature);
  }

  lemma SignalParts(expiry: Text, name: Text, signature: Text)
    requires DOT !in expiry && DOT !in signature
    ensures Split(SignalMessage(expiry, name) + [DOT] + signature, DOT) == [SIGNAL_VERSION, expiry] + Split(name, DOT) + [signature]
  {
    Tags();
    hide Lit, Split;
    CutFour(SIGNAL_VERSION, expiry, name, signature);
  }

  lemma SignalJudged(c: Checker, root: Text, signal: Text, expiry: Text, name: Text, signature: Text)
    requires Split(signal, DOT) == [SIGNAL_VERSION, expiry] + Split(name, DOT) + [signature]
    requires root != [] && signature != [] && c.number(expiry).Some?
    ensures VerifySignal(c, root, signal) ==
      if ValidName(name) && c.number(expiry).value > c.now && VerifyText(c.verify, root, SignalMessage(expiry, name), signature) then Some(name)
      else None
  {
    SplitWhole(name, DOT);
    ValidHasNoDot(name);
    hide Lit, Split, ValidName, VerifyText, SignalMessage;
  }

  // Sub-tokens of the admin WebSocket (shared/ws-admin-token.ts)

  function SocketMessage(expiry: Text): Text {
    SOCKET_VERSION + [DOT] + expiry
  }

  const BINDING: Text := Lit("admin-socket-binding")

  /** `verifyWsAdminToken`. */
  predicate VerifySocket(c: Checker, root: Text, token: Text) {
    var parts := Split(token, DOT);
    && root != [] && token != [] && |parts| == 3
    && parts[0] == SOCKET_VERSION && parts[2] != []
    && c.number(parts[1]).Some? && c.number(parts[1]).value > c.now
    && VerifyText(c.verify, root, SocketMessage(parts[1]), parts[2])
  }

  /** No text is two of: a bearer token, a signal, a socket token. */
  lemma KindsAreDisjoint(text: Text, c: Checker, root: Text, d: Checker, base: Text)
    ensures !(Parse(text).Some? && VerifySignal(c, root, text).Some?)
    ensures !(Parse(text).Some? && VerifySocket(d, base, text))
    ensures !(VerifySignal(c, root, text).Some? && VerifySocket(d, base, text))
  {
    Tags();
    hide Lit, ValidName, ValidSecret, VerifyText;
  }

  // One secret behind every kind

  /** Everything a deployment signs under one secret. */
  datatype Minted =
    | Signal(expiry: int, name: Text)
    | Socket(expiry: int)
    | SocketBinding
    | Ticket(mintedAt: time, shardKey: Text, sql: Text)

  function Message(m: Minted): Text {
    match m
    case Signal(expiry, name) => SignalMessage(Printed(expiry), name)
    case Socket(expiry) => SocketMessage(Printed(expiry))
    case SocketBinding => SocketMessage(BINDING)
    case Ticket(mintedAt, shardKey, sql) => Approval.Payload(Approval.Expiry(mintedAt), shardKey, sql)
  }

  /** An ideal MAC: under `root`, only the bytes of what was minted verify. */
  ghost predicate IdealUnder(verify: Verifier, root: Text, minted: set<Minted>) {
    forall bytes, mac | verify(KeyOf(root), bytes, mac) :: exists m :: m in minted && Utf8.Encode(Message(m)) == bytes
  }

  /** Expiries a double holds exactly. */
  ghost predicate Exact(minted: set<Minted>) {
    forall m | m in minted && (m.Signal? || m.Socket?) :: -MAX_SAFE_INTEGER <= m.expiry <= MAX_SAFE_INTEGER
  }

  /** `Number` of the words of a binding is not a number. */
  ghost predicate ReadsNumbers(number: Text -> Option<real>) {
    ReadsPrinted(number) && number(BINDING) == None
  }

  /** What was minted, with its free texts as `TextEncoder` sees them. */
  function Seen(m: Minted): Minted {
    match m
    case Signal(expiry, name) => Signal(expiry, Utf8.Scrubbed(name))
    case Ticket(mintedAt, shardKey, sql) => Ticket(mintedAt, shardKey, Utf8.Scrubbed(sql))
    case _ => m
  }

  /** A text without surrogates. */
  lemma PlainStays(t: Text)
    requires forall i | 0 <= i < |t| :: t[i] < 0xD800
    ensures Utf8.Scrubbed(t) == t && 0xFFFD !in t
  {
    Utf8.PlainIsWhole(t);
    Utf8.WholeStays(t);
  }

  lemma SignalShape(expiry: Text, name: Text)
    ensures SignalMessage(expiry, name) == Approval.Dotted(SIGNAL_VERSION, Approval.Dotted(expiry, name))
  {
    hide Lit;
  }

  lemma SignalScrubbed(expiry: Text, name: Text)
    ensures Utf8.Scrubbed(SignalMessage(expiry, name)) == SignalMessage(Utf8.Scrubbed(expiry), Utf8.Scrubbed(name))
  {
    Tags();
    PlainStays(SIGNAL_VERSION);
    hide *;
    SignalShape(expiry, name);
    SignalShape(Utf8.Scrubbed(expiry), Utf8.Scrubbed(name));
    Approval.DottedScrubbed(SIGNAL_VERSION, Approval.Dotted(expiry, name));
    Approval.DottedScrubbed(expiry, name);
  }

  lemma SocketScrubbed(expiry: Text)
    ensures Utf8.Scrubbed(SocketMessage(expiry)) == SocketMessage(Utf8.Scrubbed(expiry))
  {
    Tags();
    PlainStays(SOCKET_VERSION);
    hide Lit, Utf8.Scrubbed;
    Utf8.ScrubbedAround(SOCKET_VERSION, DOT, expiry);
  }

  lemma BindingPlain()
    ensures forall i | 0 <= i < |BINDING| :: BINDING[i] < 0xD800
  {}

  lemma MessageSeen(m: Minted)
    ensures Utf8.Scrubbed(Message(m)) == Message(Seen(m))
  {
    hide Lit, Utf8.Scrubbed, SignalMessage, SocketMessage, Approval.Payload, Printed;
    match m
    case Signal(expiry, name) =>
      PlainStays(Printed(expiry));
      SignalScrubbed(Printed(expiry), name);
    case Socket(expiry) =>
      PlainStays(Printed(expiry));
      SocketScrubbed(Printed(expiry));
    case SocketBinding =>
      BindingPlain();
      PlainStays(BINDING);
      SocketScrubbed(BINDING);
    case Ticket(mintedAt, shardKey, sql) =>
      PlainStays(Approval.Expiry(mintedAt));
      Approval.PayloadScrubbed(Approval.Expiry(mintedAt), shardKey, sql);
  }

  lemma VerifiedMessage(verify: Verifier, root: Text, minted: set<Minted>, message: Text, signature: Text) returns (m: Minted)
    requires IdealUnder(verify, root, minted) && VerifyText(verify, root, message, signature)
    ensures m in minted && Utf8.Encode(Message(m)) == Utf8.Encode(message)
    ensures Utf8.Scrubbed(message) == Message(Seen(m))
  {
    hide Message, Base64.FromBase64Url, KeyOf, Utf8.Encode, Utf8.Scrubbed, Utf8.Points;
    m :| m in minted && Utf8.Encode(Message(m)) == Utf8.Encode(message);
    Utf8.EncodeExact(Message(m), message);
    MessageSeen(m);
  }

  /** A text that scrubs to one without U+FFFD is that text. */
  lemma ScrubsTo(t: Text, plain: Text)
    requires Utf8.Scrubbed(t) == plain && 0xFFFD !in plain
    ensures t == plain
  {
    Utf8.NothingScrubbed(t);
  }

  lemma SignalDiffers(expiry: Text, name: Text, m: Minted)
    requires SignalMessage(expiry, name) == Message(m)
    ensures m.Signal?
  {
    Tags();
    hide Lit, Json.Quote;
    assert Message(m)[0] == 97;
  }

  /** A verified signal carries the name and the expiry of one that was minted, and that expiry is ahead; nothing else
      signed under the same secret passes for one. */
  lemma SignalMeansMinted(c: Checker, root: Text, minted: set<Minted>, signal: Text)
    requires ReadsPrinted(c.number) && IdealUnder(c.verify, root, minted) && Exact(minted)
    requires VerifySignal(c, root, signal).Some?
    ensures exists expiry: int ::
      Signal(expiry, VerifySignal(c, root, signal).value) in minted && Split(signal, DOT)[1] == Printed(expiry) && c.now < expiry as real
  {
    var parts := Split(signal, DOT);
    NamePlain(parts[2]);
    hide Lit, VerifyText, ValidName, IdealUnder, Printed, Utf8.Scrubbed, Utf8.Encode, SignalMessage, Message;
    var m := VerifiedMessage(c.verify, root, minted, SignalMessage(parts[1], parts[2]), parts[3]);
    SignalScrubbed(parts[1], parts[2]);
    SignalDiffers(Utf8.Scrubbed(parts[1]), parts[2], Seen(m));
    SignalIs(Seen(m));
    Approval.NoDotScrubbed(parts[1]);
    SameSignal(Utf8.Scrubbed(parts[1]), parts[2], Printed(m.expiry), Utf8.Scrubbed(m.name));
    PlainStays(Printed(m.expiry));
    ScrubsTo(parts[1], Printed(m.expiry));
    ScrubsTo(m.name, parts[2]);
    assert c.number(Printed(m.expiry)) == Some(m.expiry as real);
  }

  lemma SignalIs(m: Minted)
    requires m.Signal?
    ensures Message(m) == SignalMessage(Printed(m.expiry), m.name)
  {}

  lemma NamePlain(name: Text)
    requires ValidName(name)
    ensures Utf8.Scrubbed(name) == name && 0xFFFD !in name
  {
    PlainStays(name);
  }

  lemma SameSignal(expiry: Text, name: Text, expiry': Text, name': Text)
    requires DOT !in expiry && DOT !in expiry' && SignalMessage(expiry, name) == SignalMessage(expiry', name')
    ensures expiry == expiry' && name == name'
  {
    hide Lit;
    assert SignalMessage(expiry, name)[|SIGNAL_VERSION| + 1..] == expiry + [DOT] + name;
    assert SignalMessage(expiry', name')[|SIGNAL_VERSION| + 1..] == expiry' + [DOT] + name';
    DotFreePrefix(expiry, name, expiry', name');
  }

  lemma AfterVersion(x: Text, y: Text)
    ensures SocketMessage(x) == SocketMessage(y) <==> x == y
  {
    hide Lit;
    assert SocketMessage(x)[|SOCKET_VERSION| + 1..] == x && SocketMessage(y)[|SOCKET_VERSION| + 1..] == y;
  }

  /** Behind its version tag a ticket's payload holds a dot. */
  lemma TicketIsLonger(expiry: Text, shardKey: Text, sql: Text)
    ensures exists rest :: DOT in rest && Approval.Payload(expiry, shardKey, sql) == SocketMessage(rest)
  {
    Tags();
    hide Lit, Json.Quote;
    var rest := expiry + [DOT] + Json.Quote(shardKey) + [DOT] + sql;
    assert rest[|expiry|] == DOT;
    assert Approval.Payload(expiry, shardKey, sql) == SocketMessage(rest);
  }

  /** A verified socket token carries the expiry of one that was minted, and that expiry is ahead: neither the binding signed with the same
      tag, nor a signal, nor an approval ticket passes for one. */
  lemma SocketMeansMinted(c: Checker, root: Text, minted: set<Minted>, token: Text)
    requires ReadsNumbers(c.number) && IdealUnder(c.verify, root, minted) && Exact(minted)
    requires VerifySocket(c, root, token)
    ensures exists expiry: int :: Socket(expiry) in minted && Split(token, DOT)[1] == Printed(expiry) && c.now < expiry as real
  {
    var parts := Split(token, DOT);
    hide Lit, VerifyText, IdealUnder, Printed, Utf8.Scrubbed, Utf8.Encode, SocketMessage, Message;
    var m := VerifiedMessage(c.verify, root, minted, SocketMessage(parts[1]), parts[2]);
    SocketScrubbed(parts[1]);
    Approval.NoDotScrubbed(parts[1]);
    OnlySocket(Utf8.Scrubbed(parts[1]), Seen(m));
    if m.Socket? {
      PlainStays(Printed(m.expiry));
      ScrubsTo(parts[1], Printed(m.expiry));
      assert c.number(Printed(m.expiry)) == Some(m.expiry as real);
    } else {
      BindingPlain();
      PlainStays(BINDING);
      ScrubsTo(parts[1], BINDING);
    }
  }

  lemma TagsDiffer(expiry: Text, name: Text, rest: Text)
    ensures SignalMessage(expiry, name) != SocketMessage(rest)
  {
    Tags();
    hide Lit;
    assert SignalMessage(expiry, name)[0] == 97 && SocketMessage(rest)[0] == 118;
  }

  lemma OnlySocket(expiry: Text, m: Minted)
    requires DOT !in expiry && Message(m) == SocketMessage(expiry)
    ensures (m.Socket? && expiry == Printed(m.expiry)) || (m.SocketBinding? && expiry == BINDING)
  {
    Tags();
    hide Lit, Printed, Approval.Payload, Json.Quote;
    match m
    case Signal(e, name) => TagsDiffer(Printed(e), name, expiry);
    case Socket(e) => AfterVersion(expiry, Printed(e));
    case SocketBinding => AfterVersion(expiry, BINDING);
    case Ticket(mintedAt, shardKey, sql) =>
      TicketIsLonger(Approval.Expiry(mintedAt), shardKey, sql);
      var rest :| DOT in rest && Message(m) == SocketMessage(rest);
      AfterVersion(expiry, rest);
  }

  /** And an answer accepted under a secret shared with all of them rests on a ticket for its own shard and the bytes
      of its statement. */
  lemma TicketMeansMinted(c: Approval.Checker, minted: set<Minted>, answer: Approval.Answer)
    requires ReadsPrinted(c.number) && IdealUnder(c.verify, c.key, minted)
    requires Approval.Verified(c, answer).Some?
    ensures exists mintedAt: time, sql ::
      Ticket(mintedAt, c.shardKey, sql) in minted
      && Utf8.Encode(sql) == Utf8.Encode(Approval.Verified(c, answer).value.sql)
      && c.now < mintedAt + Approval.APPROVAL_TTL_MS
  {
    var parts := Split(Prompt.Capped(answer.ticket, Approval.TICKET_CAP), DOT);
    var sql := Approval.Verified(c, answer).value.sql;
    var payload := Approval.Payload(parts[1], c.shardKey, sql);
    hide Prompt.Capped, Approval.Payload, VerifyText, IdealUnder, Printed, Message, Utf8.Encode, Utf8.Scrubbed;
    var m := VerifiedMessage(c.verify, c.key, minted, payload, parts[2]);
    Approval.PayloadScrubbed(parts[1], c.shardKey, sql);
    OnlyTicket(Utf8.Scrubbed(parts[1]), c.shardKey, Utf8.Scrubbed(sql), Seen(m));
    TicketIs(m);
    Approval.VerifiedMeansMinted(c, answer, m.mintedAt, m.shardKey, m.sql);
  }

  lemma TicketIs(m: Minted)
    requires m.Ticket?
    ensures Message(m) == Approval.Payload(Approval.Expiry(m.mintedAt), m.shardKey, m.sql)
  {}

  lemma OnlyTicket(expiry: Text, shardKey: Text, sql: Text, m: Minted)
    requires Message(m) == Approval.Payload(expiry, shardKey, sql)
    ensures m.Ticket? && Approval.Payload(expiry, shardKey, sql) == Approval.Payload(Approval.Expiry(m.mintedAt), m.shardKey, m.sql)
  {
    Tags();
    TicketIsLonger(expiry, shardKey, sql);
    var rest :| DOT in rest && Message(m) == SocketMessage(rest);
    hide Lit, Approval.Payload, Json.Quote;
    match m
    case Signal(e, name) => TagsDiffer(Printed(e), name, rest);
    case Socket(e) => AfterVersion(Printed(e), rest);
    case SocketBinding =>
      BindingHasNoDot();
      AfterVersion(BINDING, rest);
    case Ticket(_, _, _) =>
  }

  lemma BindingHasNoDot()
    ensures DOT !in BINDING
  {}
}
