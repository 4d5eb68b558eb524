/** Approval tickets (shared/ai-chat.ts): what a ticket is signed over and when one is accepted. */
module Approval {
  import opened Hmac
  import JsNumber
  import opened JsText
  import Json
  import opened Prompt
  import Utf8

  const APPROVAL_TTL_MS: nat := 600_000
  const TICKET_CAP: nat := 200
  const VERSION: Text := Lit("v1")

  /** `ticketPayload`. */
  function Payload(expiresAt: Text, shardKey: Text, sql: Text): Text {
    VERSION + [DOT] + expiresAt + [DOT] + Json.Quote(shardKey) + [DOT] + sql
  }

  /** One payload, one expiry, shard and statement: a shard key that holds dots cannot shift the boundary. */
  lemma PayloadInjective(e1: Text, s1: Text, q1: Text, e2: Text, s2: Text, q2: Text)
    requires DOT !in e1 && DOT !in e2 && Payload(e1, s1, q1) == Payload(e2, s2, q2)
    ensures e1 == e2 && s1 == s2 && q1 == q2
  {
    hide Json.Quote, Lit;
    var x1, x2 := Json.Quote(s1) + [DOT] + q1, Json.Quote(s2) + [DOT] + q2;
    assert Payload(e1, s1, q1)[|VERSION| + 1..] == e1 + [DOT] + x1;
    assert Payload(e2, s2, q2)[|VERSION| + 1..] == e2 + [DOT] + x2;
    DotFreePrefix(e1, x1, e2, x2);
    assert x1 == Json.Quote(s1) + ([DOT] + q1) && x2 == Json.Quote(s2) + ([DOT] + q2);
    Json.QuoteSelfDelimiting(s1, [DOT] + q1, s2, [DOT] + q2);
    assert ([DOT] + q1)[1..] == q1 && ([DOT] + q2)[1..] == q2;
  }

  function Dotted(a: Text, b: Text): Text {
    a + [DOT] + b
  }

  lemma DottedScrubbed(a: Text, b: Text)
    ensures Utf8.Scrubbed(Dotted(a, b)) == Dotted(Utf8.Scrubbed(a), Utf8.Scrubbed(b))
  {
    hide Utf8.Scrubbed;
    Utf8.ScrubbedAround(a, DOT, b);
  }

  lemma PayloadShape(e: Text, s: Text, q: Text)
    ensures Payload(e, s, q) == Dotted(VERSION, Dotted(e, Dotted(Json.Quote(s), q)))
  {
    hide Lit, Json.Quote;
  }

  lemma NothingToScrub(s: Text)
    ensures Utf8.Scrubbed(VERSION) == VERSION && Utf8.Scrubbed(Json.Quote(s)) == Json.Quote(s)
  {
    Utf8.QuoteWhole(s);
    Utf8.WholeStays(Json.Quote(s));
    Utf8.PlainIsWhole(VERSION);
    Utf8.WholeStays(VERSION);
  }

  lemma PayloadScrubbed(e: Text, s: Text, q: Text)
    ensures Utf8.Scrubbed(Payload(e, s, q)) == Payload(Utf8.Scrubbed(e), s, Utf8.Scrubbed(q))
  {
    hide *;
    NothingToScrub(s);
    PayloadShape(e, s, q);
    PayloadShape(Utf8.Scrubbed(e), s, Utf8.Scrubbed(q));
    DottedScrubbed(VERSION, Dotted(e, Dotted(Json.Quote(s), q)));
    DottedScrubbed(e, Dotted(Json.Quote(s), q));
    DottedScrubbed(Json.Quote(s), q);
  }

  lemma NoDotScrubbed(e: Text)
    requires DOT !in e
    ensures DOT !in Utf8.Scrubbed(e)
  {
    hide Utf8.Scrubbed;
  }

  /** What a ticket really binds, its payload being signed as bytes: the shard exactly, the expiry and the statement up
      to which lone surrogate or U+FFFD stands where. */
  lemma PayloadBytes(e1: Text, s1: Text, q1: Text, e2: Text, s2: Text, q2: Text)
    requires DOT !in e1 && DOT !in e2
    ensures Utf8.Encode(Payload(e1, s1, q1)) == Utf8.Encode(Payload(e2, s2, q2)) <==>
      Utf8.Encode(e1) == Utf8.Encode(e2) && s1 == s2 && Utf8.Encode(q1) == Utf8.Encode(q2)
  {
    hide Utf8.Encode, Utf8.Points, Utf8.Scrubbed, Payload;
    Utf8.EncodeExact(Payload(e1, s1, q1), Payload(e2, s2, q2));
    Utf8.EncodeExact(e1, e2);
    Utf8.EncodeExact(q1, q2);
    PayloadScrubbed(e1, s1, q1);
    PayloadScrubbed(e2, s2, q2);
    NoDotScrubbed(e1);
    NoDotScrubbed(e2);
    if Utf8.Encode(Payload(e1, s1, q1)) == Utf8.Encode(Payload(e2, s2, q2)) {
      PayloadInjective(Utf8.Scrubbed(e1), s1, Utf8.Scrubbed(q1), Utf8.Scrubbed(e2), s2, Utf8.Scrubbed(q2));
    }
  }

  /** `Date.now() + APPROVAL_TTL_MS` as text. */
  function Expiry(mintedAt: time): (e: Text)
    ensures DOT !in e
  {
    Printed(mintedAt + APPROVAL_TTL_MS)
  }

  /** The operator's answer as the browser sends it: not an object, or its fields where their types are right. */
  datatype Answer = NotAnObject | Fields(allow: Option<bool>, sql: Option<Text>, ticket: Option<Text>)

  datatype Approved = Approved(allow: bool, sql: Text)

  /** What verifying a ticket depends on besides the ticket: the key this isolate resolves, the clock, the
      shard of the request, `Number` on the text of an expiry (`None` where it is not finite), and HMAC. */
  datatype Checker = Checker(
    key: Text,
    now: time,
    shardKey: Text,
    number: Text -> Option<real>,
    verify: Verifier)

  /** `ticketApproves`. */
  predicate Approves(c: Checker, ticket: Text, sql: Text) {
    var parts := Split(ticket, DOT);
    |parts| >= 3 && parts[0] == VERSION
    && c.number(parts[1]).Some? && c.number(parts[1]).value > c.now as real
    && VerifyText(c.verify, c.key, Payload(parts[1], c.shardKey, sql), parts[2])
  }

  /** `verifiedApproval`. */
  function Verified(c: Checker, answer: Answer): Option<Approved> {
    if answer.NotAnObject? then None
    else
      var ticket := Capped(answer.ticket, TICKET_CAP);
      var statement := Capped(answer.sql, STATEMENT_CAP);
      if answer.allow.None? || ticket == [] || statement == [] || !Approves(c, ticket, statement) then None
      else Some(Approved(answer.allow.value, statement))
  }

  function TicketEntry(secret: Text, mintedAt: time, shardKey: Text, sql: Text): (Key, seq<JsNumber.byte>) {
    (KeyOf(secret), Utf8.Encode(Payload(Expiry(mintedAt), shardKey, sql)))
  }

  /** A text with the bytes of a printed number is that number printed. */
  lemma PrintedBytes(text: Text, n: int)
    requires Utf8.Encode(text) == Utf8.Encode(Printed(n))
    ensures text == Printed(n)
  {
    hide Printed, Utf8.Encode, Utf8.Scrubbed, Utf8.Whole, Utf8.Points;
    var p := Printed(n);
    Utf8.PlainIsWhole(p);
    Utf8.WholeStays(p);
    Utf8.EncodeExact(text, p);
    assert 0xFFFD !in p;
    Utf8.NothingScrubbed(text);
  }

  /** An accepted answer is about the bytes of a statement some ticket was minted for: on this shard, not yet expired. */
  lemma VerifiedMeansMinted(c: Checker, answer: Answer, mintedAt: time, shardKey: Text, sql: Text)
    requires ReadsPrinted(c.number)
    requires Verified(c, answer).Some?
    requires var parts := Split(Capped(answer.ticket, TICKET_CAP), DOT);
      |parts| >= 3
      && Utf8.Encode(Payload(parts[1], c.shardKey, Capped(answer.sql, STATEMENT_CAP))) == Utf8.Encode(Payload(Expiry(mintedAt), shardKey, sql))
    ensures c.shardKey == shardKey && Utf8.Encode(Verified(c, answer).value.sql) == Utf8.Encode(sql)
    ensures c.now < mintedAt + APPROVAL_TTL_MS
    ensures answer.Fields? && answer.allow == Some(Verified(c, answer).value.allow)
  {
    hide Capped, Payload, Utf8.Encode, Printed, VerifyText;
    var parts := Split(Capped(answer.ticket, TICKET_CAP), DOT);
    var statement := Capped(answer.sql, STATEMENT_CAP);
    PayloadBytes(parts[1], c.shardKey, statement, Expiry(mintedAt), shardKey, sql);
    PrintedBytes(parts[1], mintedAt + APPROVAL_TTL_MS);
    assert c.number(Printed(mintedAt + APPROVAL_TTL_MS)) == Some((mintedAt + APPROVAL_TTL_MS) as real);
  }
}
