/** Approval cards at particular statements: what a model has to say to get a card shown, and what becomes of a card whose
    statement was cut at a space, holds backticks, or holds a lone surrogate. */
module Cards {
  import opened Approval
  import opened ChatTurn
  import opened Hmac
  import opened JsText
  import Json
  import opened Narrator
  import opened Prompt
  import opened ToolRequest
  import Transcript
  import Utf8

  // A model that asks for a statement

  /** The body of a JSON string that writes `s` with every backtick as `\u0060`. */
  function Spelled(s: Text): Text {
    if s == [] then []
    else if |s| > 1 && Json.IsHigh(s[0]) && Json.IsLow(s[1]) then s[..2] + Spelled(s[2..])
    else (if s[0] == TICK then Json.UnicodeEscape(TICK) else Json.EscapeUnit(s[0])) + Spelled(s[1..])
  }

  lemma TickParsed(rest: Text)
    ensures Json.ParseString(Json.UnicodeEscape(TICK) + rest) == Json.Prepend(TICK, Json.ParseString(rest))
  {
    Json.UnicodeEscapeStart(TICK);
    Json.HexRoundTrip(TICK);
    hide Json.UnicodeEscape, Json.HexQuad;
    var t := Json.UnicodeEscape(TICK) + rest;
    assert t[6..] == rest;
  }

  lemma {:induction false} SpelledParses(s: Text, rest: Text)
    ensures Json.ParseString(Spelled(s) + [Json.QUOTE] + rest) == Some((s, rest))
  {
    hide Json.EscapeUnit, Json.UnicodeEscape, Json.ParseString;
    var t := Spelled(s) + [Json.QUOTE] + rest;
    if s == [] {
      Json.ClosingQuote(rest);
      assert t == [Json.QUOTE] + rest;
    } else if |s| > 1 && Json.IsHigh(s[0]) && Json.IsLow(s[1]) {
      var tail := Spelled(s[2..]) + [Json.QUOTE] + rest;
      SpelledParses(s[2..], rest);
      Json.ParsePair(s[0], s[1], s[2..], tail, rest);
      assert t == [s[0], s[1]] + tail;
      assert s == [s[0], s[1]] + s[2..];
    } else {
      var tail := Spelled(s[1..]) + [Json.QUOTE] + rest;
      SpelledParses(s[1..], rest);
      if s[0] == TICK {
        TickParsed(tail);
        assert t == Json.UnicodeEscape(TICK) + tail;
      } else {
        Json.ParseEscapedUnit(s[0], tail);
        assert t == Json.EscapeUnit(s[0]) + tail;
      }
      assert s == [s[0]] + s[1..];
    }
  }

  lemma NoTickWritten(c: unit)
    ensures TICK !in Json.UnicodeEscape(TICK)
    ensures c != TICK ==> TICK !in Json.EscapeUnit(c)
  {
    EscapeUnitTicks(c);
  }

  lemma {:induction false} SpelledTickless(s: Text)
    ensures TICK !in Spelled(s)
  {
    hide Json.EscapeUnit, Json.UnicodeEscape;
    if s != [] {
      if |s| > 1 && Json.IsHigh(s[0]) && Json.IsLow(s[1]) {
        SpelledTickless(s[2..]);
      } else {
        SpelledTickless(s[1..]);
        NoTickWritten(s[0]);
      }
    }
  }

  /** The request between the fences. */
  function AskedText(sql: Text): Text {
    Lead() + Spelled(sql) + [Json.QUOTE, Json.RBRACE]
  }

  /** A reply that asks to run `sql`, any text at all. */
  function Asking(sql: Text): Text {
    TOOL_FENCE + [LF] + AskedText(sql) + [LF] + CODE_FENCE
  }

  lemma SpelledValue(sql: Text, rest: Text)
    ensures Json.ParseValue([Json.QUOTE] + Spelled(sql) + [Json.QUOTE] + rest) == Some((Json.Str(sql), rest))
  {
    SpelledParses(sql, rest);
    hide Json.ParseString, Json.ParseMembers, Json.ParseItems, Json.ParseScalar, Spelled;
    assert ([Json.QUOTE] + Spelled(sql) + [Json.QUOTE] + rest)[1..] == Spelled(sql) + [Json.QUOTE] + rest;
  }

  lemma RequestParses(sql: Text)
    ensures Json.Parse(AskedText(sql)) == Some(RunSqlObject(sql))
  {
    hide *;
    var name, key := (Lit("name"), Json.Str(Lit("runSql"))), Lit("sql");
    var printed := [Json.QUOTE] + Spelled(sql) + [Json.QUOTE];
    var member := Json.Quote(key) + [Json.COLON] + printed;
    var close: Text := [Json.RBRACE];
    SpelledValue(sql, close);
    Json.MemberStep(key, printed, Json.Str(sql), close);
    assert close + [] == close;
    Json.LastMemberStep(member + close, (key, Json.Str(sql)), []);
    NameMember();
    CommaDelimits(member + close);
    Json.ParsePrintedMember(name, [Json.COMMA] + (member + close));
    var body := Json.PrintMember(name) + [Json.COMMA] + member;
    var whole := Json.PrintMember(name) + ([Json.COMMA] + (member + close));
    Json.NextMemberStep(whole, name, member + close, [(key, Json.Str(sql))], []);
    assert body + close + [] == whole;
    MemberStarts(name);
    Json.ObjectStep(body, [name] + [(key, Json.Str(sql))], []);
    assert [name] + [(key, Json.Str(sql))] == [name, (key, Json.Str(sql))];
    ObjectIs(sql);
    assert [Json.LBRACE] + body + [Json.RBRACE] + [] == [Json.LBRACE] + body + close;
    RequestShape(sql);
    ParsedWhole(AskedText(sql), RunSqlObject(sql));
  }

  lemma CommaDelimits(t: Text)
    ensures Json.Delimited([Json.COMMA] + t)
  {}

  lemma MemberStarts(member: (Text, Json.Json))
    ensures Json.PrintMember(member) != [] && Json.PrintMember(member)[0] == Json.QUOTE
  {
    hide Json.Print, Json.Escape;
  }

  lemma ObjectIs(sql: Text)
    ensures RunSqlObject(sql) == Json.Obj([(Lit("name"), Json.Str(Lit("runSql"))), (Lit("sql"), Json.Str(sql))])
  {
    hide Lit;
  }

  lemma RequestShape(sql: Text)
    ensures AskedText(sql) == [Json.LBRACE]
      + (Json.PrintMember((Lit("name"), Json.Str(Lit("runSql")))) + [Json.COMMA]
         + (Json.Quote(Lit("sql")) + [Json.COLON] + ([Json.QUOTE] + Spelled(sql) + [Json.QUOTE])))
      + [Json.RBRACE]
  {
    NameMember();
    hide *;
    var a, b, c := Json.PrintMember((Lit("name"), Json.Str(Lit("runSql")))), Json.Quote(Lit("sql")), Spelled(sql);
    AskedIs(sql);
    assert [Json.LBRACE] + a + [Json.COMMA] + b + [Json.COLON] + [Json.QUOTE] + c + [Json.QUOTE, Json.RBRACE]
      == [Json.LBRACE] + (a + [Json.COMMA] + (b + [Json.COLON] + ([Json.QUOTE] + c + [Json.QUOTE]))) + [Json.RBRACE];
  }

  lemma AskedIs(sql: Text)
    ensures AskedText(sql) == Lead() + Spelled(sql) + [Json.QUOTE, Json.RBRACE]
  {
    hide Lead, Spelled;
  }

  lemma ParsedWhole(t: Text, j: Json.Json)
    requires Json.ParseValue(t) == Some((j, []))
    ensures Json.Parse(t) == Some(j)
  {
    hide Json.ParseValue;
  }

  /** Such a reply is a valid request for the statement, capped. */
  lemma AskingIsRequest(sql: Text, gate: Gate)
    ensures var reply := Asking(sql);
      Trim(reply) == reply != [] && Request(reply) == Some(AskedText(sql))
      && Validate(AskedText(sql), SchemaAndLogAndData, gate) == ValidateNamed(RunSql, Some(sql), SchemaAndLogAndData, gate)
  {
    LeadFacts();
    FenceFacts();
    SpelledTickless(sql);
    hide Lit, Lead, Spelled, IsSpace, Trim, Request, Json.Parse, Json.Get, ValidateNamed, Named;
    TicklessHasNone([LF] + AskedText(sql));
    BlockFound(AskedText(sql));
    RequestParses(sql);
    RequestFields(sql);
  }

  /** A turn whose first inference asks for `sql`. */
  ghost predicate Asks(env: Env, sql: Text) {
    && Starts(env) && ApprovedBy(env).None? && env.level.SchemaAndLogAndData? && !env.aborted(0, 0)
    && env.model(0).Said? && Heard(env.model(0)) == Asking(sql)
  }

  /** The outcome is a card. */
  ghost predicate ShowsCard(result: ChatResult, card: Pending) {
    result.Ok? && result.pending == Some(card)
  }

  lemma CardActed(env: Env, truncated: bool, st: State, reply: Text, cut: Text)
    requires ApprovedBy(env).None?
    ensures var next := Act(env, ApprovedBy(env), truncated, 0, st, reply, Call(RunSql, Some(cut)));
      next.Done? && ShowsCard(next.outcome.result, Pending(RunSql, cut, Ticket(env, cut)))
  {
    hide ApprovedBy, Ticket, WithoutBlock, Observed, Lit;
  }

  lemma CapsStatement(sql: Text, gate: Gate)
    requires var cut := Capped(Some(sql), STATEMENT_CAP); cut != [] && gate(cut).None?
    ensures ValidateNamed(RunSql, Some(sql), SchemaAndLogAndData, gate) == Call(RunSql, Some(Capped(Some(sql), STATEMENT_CAP)))
  {
    hide Capped, Lit;
  }

  lemma CardJudged(env: Env, truncated: bool, st: State, sql: Text)
    requires ApprovedBy(env).None? && env.level.SchemaAndLogAndData?
    requires var cut := Capped(Some(sql), STATEMENT_CAP); cut != [] && env.gate(cut).None?
    ensures var next := Judge(env, ApprovedBy(env), truncated, 0, st, Asking(sql));
      var cut := Capped(Some(sql), STATEMENT_CAP);
      next.Done? && ShowsCard(next.outcome.result, Pending(RunSql, cut, Ticket(env, cut)))
  {
    hide *;
    AskingIsRequest(sql, env.gate);
    CapsStatement(sql, env.gate);
    CardActed(env, truncated, st, Asking(sql), Capped(Some(sql), STATEMENT_CAP));
    Limits();
    JudgeActs(env, ApprovedBy(env), truncated, 0, st, Asking(sql));
  }

  /** It returns a card for the statement, capped, when the gate accepts that. */
  lemma AskingGetsCard(env: Env, sql: Text)
    requires Asks(env, sql)
    requires var cut := Capped(Some(sql), STATEMENT_CAP); cut != [] && env.gate(cut).None?
    ensures var cut := Capped(Some(sql), STATEMENT_CAP); Asked(env) == Some(Pending(RunSql, cut, Ticket(env, cut)))
  {
    var st := Start(env, Capped(env.prompt, PROMPT_CAP));
    hide Asking, Capped, ApprovedBy, Truncated, Ticket, Rounds, Heard, UserPrompt, Judge;
    CardJudged(env, Truncated(env), Opened(env, ApprovedBy(env), 0, st), sql);
    hide Opened, Start;
    RoundsUnfold(env, ApprovedBy(env), Truncated(env), 0, st);
  }

  /** The read-only gate on the statements below: they lead with SELECT. */
  function Gated(sql: Text): Option<Text> {
    if Lit("SELECT ") <= sql then None else Some([])
  }

  /** Such a turn, on any shard, under any key, at any time. */
  function AskingEnv(sql: Text, c: Checker, sign: Signer, mintedAt: time): Env {
    Env(true, SchemaAndLogAndData, Some([113]), None, [], None, NotAnObject, c, mintedAt, sign,
      _ => Said([Asking(sql)]), None, (_, _) => false, Gated)
  }

  lemma AskingEnvAsks(sql: Text, c: Checker, sign: Signer, mintedAt: time)
    ensures Asks(AskingEnv(sql, c, sign, mintedAt), sql)
  {
    hide Capped, Asking, Gated, Approves, Concat;
    CappedPlain([113], PROMPT_CAP);
    ConcatOne(Asking(sql));
  }

  lemma ConcatOne(t: Text)
    ensures Concat([t]) == t
  {
    assert [t][..0] == [];
  }

  /** Text without a dash holds no marker. */
  lemma CappedNoDash(s: Text, cap: nat)
    requires DASH !in s && Trimmed(s)
    ensures Capped(Some(s), cap) == Take(s, cap)
  {
    MarkersHoldDashes();
    hide Lit, Trimmed, ReplaceAll;
    TrimTrimmed(s);
    forall i ensures !At(s, UNTRUSTED_BEGIN, i) && !At(s, UNTRUSTED_END, i) {
      if At(s, UNTRUSTED_BEGIN, i) {
        FirstUnit(s, UNTRUSTED_BEGIN, i);
      }
      if At(s, UNTRUSTED_END, i) {
        FirstUnit(s, UNTRUSTED_END, i);
      }
    }
    NothingReplaced(s, UNTRUSTED_BEGIN, NEUTRALISED);
    NothingReplaced(s, UNTRUSTED_END, NEUTRALISED);
  }

  lemma MarkersHoldDashes()
    ensures UNTRUSTED_BEGIN != [] && UNTRUSTED_END != [] && UNTRUSTED_BEGIN[0] == DASH && UNTRUSTED_END[0] == DASH
  {}

  lemma FirstUnit(s: Text, p: Text, i: int)
    requires At(s, p, i) && p != []
    ensures 0 <= i < |s| && s[i] == p[0]
  {
    assert s[i..i + |p|][0] == s[i];
  }

  /** A gated statement without dashes, asked for, is shown on a card. */
  lemma StatementGetsCard(sql: Text, c: Checker, sign: Signer, mintedAt: time)
    requires DASH !in sql && Trimmed(sql) && Lit("SELECT ") <= Take(sql, STATEMENT_CAP)
    ensures var env, cut := AskingEnv(sql, c, sign, mintedAt), Take(sql, STATEMENT_CAP);
      Asked(env) == Some(Pending(RunSql, cut, Ticket(env, cut)))
  {
    SelectLength();
    AskingEnvAsks(sql, c, sign, mintedAt);
    hide Asks, Capped, Ticket, Lit, TurnOf;
    CappedNoDash(sql, STATEMENT_CAP);
    AskingGetsCard(AskingEnv(sql, c, sign, mintedAt), sql);
  }

  lemma SelectLength()
    ensures Lit("SELECT ") == [83, 69, 76, 69, 67, 84, 32]
  {}

  // A statement cut at a space

  /** `SELECT aaa… a`, 2,001 characters with a space at the 2,000th. */
  function LongSelect(): Text {
    Lit("SELECT ") + seq(1992, _ => 97) + [32, 97]
  }

  lemma LongSelectFacts()
    ensures var sql := LongSelect(); |sql| == 2001 && sql[1999] == 32 && DASH !in sql && Trimmed(sql) && Lit("SELECT ") <= sql
    ensures var cut := Take(LongSelect(), STATEMENT_CAP); |cut| == 2000 && !Trimmed(cut) && Lit("SELECT ") <= cut
  {
    SelectLength();
    hide Lit;
    var sql := LongSelect();
    assert sql[0] == 83 && sql[2000] == 97 && sql[1999] == 32;
    assert Take(sql, STATEMENT_CAP)[1999] == 32;
  }

  /** The model asks for that statement, the turn returns a card for its first 2,000 characters, and no answer with the
      card's own statement and ticket is ever accepted. */
  lemma CutAtSpace(c: Checker, sign: Signer, mintedAt: time, later: Checker, signed: Signed, allow: bool)
    ensures var env := AskingEnv(LongSelect(), c, sign, mintedAt);
      Asked(env).Some? && Asked(env).value.sql == LongSelect()[..2000] && !Trimmed(Asked(env).value.sql)
    ensures var env := AskingEnv(LongSelect(), c, sign, mintedAt);
      var card := Asked(env).value;
      Honours(later, env, card.sql) && Ideal(later.verify, KeyOf(later.key), signed) && OnlyCard(env, signed, card.sql, Trim(card.sql)) ==>
        Verified(later, Fields(Some(allow), Some(card.sql), Some(card.ticket))) == None
  {
    LongSelectFacts();
    StatementGetsCard(LongSelect(), c, sign, mintedAt);
    var env := AskingEnv(LongSelect(), c, sign, mintedAt);
    hide AskingEnv, LongSelect, Asked, Trimmed, Honours, Ideal, OnlyCard, Verified, Trim, KeyOf, Lit;
    var card := Asked(env).value;
    if Honours(later, env, card.sql) && Ideal(later.verify, KeyOf(later.key), signed) && OnlyCard(env, signed, card.sql, Trim(card.sql)) {
      CardAnswered(env, later, signed, allow);
    }
  }

  // A statement with backticks

  /** What the model is told of an approved statement with a triple backtick: its request was not JSON. The round runs
      nothing. */
  lemma BackticksNotResumed(env: Env, sql: Text)
    requires Starts(env) && !env.aborted(0, 0) && sql != [] && Contains(sql, CODE_FENCE)
    requires ApprovedBy(env) == Some(Approved(true, sql))
    ensures var next := Step(env, ApprovedBy(env), Truncated(env), 0, Start(env, Capped(env.prompt, PROMPT_CAP)));
      next.Continue? && next.state.calls == []
      && next.state.toolCalls == [Report(None, None, Some(Lit("that tool request was not valid JSON")), None)]
  {
    FenceFacts();
    ResumedRest(sql);
    HasTicksIsContains(sql);
    hide HasTicks, Contains, Resumed, Trim, Request, Lit, Capped, ApprovedBy, Json.Parse, Truncated, UserPrompt, Observed;
    CutRequest(sql);
    ResumedNotEmpty(sql);
    assert Validate(Request(Resumed(sql)).value, env.level, env.gate) == Refusal(None, None, Lit("that tool request was not valid JSON"));
    hide Validate;
  }

  function TickSelect(): Text {
    Lit("SELECT '```'")
  }

  lemma TickSelectFacts()
    ensures var sql := TickSelect(); sql != [] && DASH !in sql && Trimmed(sql) && |sql| <= STATEMENT_CAP && Lit("SELECT ") <= sql
    ensures Contains(TickSelect(), CODE_FENCE)
  {
    assert TickSelect() == [83, 69, 76, 69, 67, 84, 32, 39, 96, 96, 96, 39];
    SelectLength();
    FenceFacts();
    assert TickSelect()[8..11] == CODE_FENCE;
    assert At(TickSelect(), CODE_FENCE, 8);
  }

  /** Such a statement does reach a card: a model writes its backticks as escapes. */
  lemma BacktickCard(c: Checker, sign: Signer, mintedAt: time)
    ensures var env := AskingEnv(TickSelect(), c, sign, mintedAt);
      Asked(env) == Some(Pending(RunSql, TickSelect(), Ticket(env, TickSelect())))
    ensures Contains(TickSelect(), CODE_FENCE)
  {
    TickSelectFacts();
    hide TickSelect, AskingEnv, Ticket, Asked, Lit, Trimmed, Contains;
    StatementGetsCard(TickSelect(), c, sign, mintedAt);
  }

  // A statement with a lone surrogate

  function SurrogateSelect(c: unit): Text {
    Lit("SELECT '") + [c, 39]
  }

  lemma SurrogateSelectFacts(c: unit)
    requires 0xD800 <= c <= 0xDBFF
    ensures var sql := SurrogateSelect(c);
      && sql != [] && DASH !in sql && Trimmed(sql) && |sql| == 10 && Lit("SELECT ") <= sql && sql[8] == c
      && !Contains(sql, CODE_FENCE)
  {
    SelectQuote();
    SelectLength();
    FenceFacts();
    hide Lit, HasTicks, Contains;
    var sql := SurrogateSelect(c);
    TicklessHasNone(sql);
    HasTicksIsContains(sql);
  }

  lemma SelectQuote()
    ensures Lit("SELECT '") == [83, 69, 76, 69, 67, 84, 32, 39]
  {}

  lemma SurrogateSelectScrubbed(c: unit)
    requires 0xD800 <= c <= 0xDBFF
    ensures Utf8.Scrubbed(SurrogateSelect(c)) == Utf8.Scrubbed([83, 69, 76, 69, 67, 84, 32]) + [39] + [0xFFFD, 39]
  {
    SelectQuote();
    SurrogateScrubbed(c);
    hide Lit, Utf8.Scrubbed;
    assert SurrogateSelect(c) == [83, 69, 76, 69, 67, 84, 32] + [39] + [c, 39];
    Utf8.ScrubbedAround([83, 69, 76, 69, 67, 84, 32], 39, [c, 39]);
  }

  lemma SurrogateScrubbed(c: unit)
    requires 0xD800 <= c <= 0xDBFF
    ensures Utf8.Scrubbed([c, 39]) == [0xFFFD, 39]
  {
    assert [c, 39][1..] == [39 as unit];
    assert Utf8.Scrubbed([39]) == [39] + Utf8.Scrubbed([]);
  }

  /** The card shows `SELECT '\ud800'`, the answer carries `SELECT '\ud801'`, and the second is what runs. */
  lemma AnotherStatementRuns(c: Checker, sign: Signer, mintedAt: time, env: Env)
    ensures var asker := AskingEnv(SurrogateSelect(0xD800), c, sign, mintedAt);
      Asked(asker).Some? && Asked(asker).value.sql == SurrogateSelect(0xD800) != SurrogateSelect(0xD801)
    ensures var asker := AskingEnv(SurrogateSelect(0xD800), c, sign, mintedAt);
      Honours(env.checker, asker, SurrogateSelect(0xD800)) && env.checker.now < mintedAt + APPROVAL_TTL_MS
      && AnsweredWith(env, asker, SurrogateSelect(0xD801)) ==>
        TurnOf(env).calls != [] && TurnOf(env).calls[0] == Forwarded(RunSql, Some(SurrogateSelect(0xD801)))
  {
    var shown, answered := SurrogateSelect(0xD800), SurrogateSelect(0xD801);
    SurrogateSelectFacts(0xD800);
    SurrogateSelectFacts(0xD801);
    SurrogateSelectScrubbed(0xD800);
    SurrogateSelectScrubbed(0xD801);
    assert shown[8] != answered[8];
    hide SurrogateSelect, Asked, Lit, Trimmed, Honours, AnsweredWith, Contains, TurnOf, KeyOf, Capped, Ticket, Utf8.Encode, Utf8.Points, Utf8.Scrubbed;
    StatementGetsCard(shown, c, sign, mintedAt);
    CappedNoDash(answered, STATEMENT_CAP);
    Utf8.EncodeExact(shown, answered);
    var asker := AskingEnv(shown, c, sign, mintedAt);
    if Honours(env.checker, asker, shown) && env.checker.now < mintedAt + APPROVAL_TTL_MS && AnsweredWith(env, asker, answered) {
      AnswerRuns(asker, env, answered);
    }
  }
}
