/** Tool requests inside a reply (shared/ai-chat.ts): finding one, removing one, validating one,
    and the request an operator's approval stands for. */
module ToolRequest {
  import opened JsText
  import Json
  import opened Prompt
  import opened Narrator

  const CODE_FENCE: Text := Lit("```")

  datatype Level = Disabled | Schema | SchemaAndLog | SchemaAndLogAndData

  function Rank(level: Level): nat {
    match level
    case Disabled => 0
    case Schema => 1
    case SchemaAndLog => 2
    case SchemaAndLogAndData => 3
  }

  function LevelName(level: Level): Text {
    match level
    case Disabled => Lit("disabled")
    case Schema => Lit("schema")
    case SchemaAndLog => Lit("schema_and_log")
    case SchemaAndLogAndData => Lit("schema_and_log_and_data")
  }

  datatype Tool = DescribeTables | ReadAdvisors | ReadLogs | ReadPolicies | RunSql

  function ToolName(tool: Tool): Text {
    match tool
    case DescribeTables => Lit("describeTables")
    case ReadAdvisors => Lit("readAdvisors")
    case ReadLogs => Lit("readLogs")
    case ReadPolicies => Lit("readPolicies")
    case RunSql => Lit("runSql")
  }

  function ToolLevel(tool: Tool): Level {
    match tool
    case DescribeTables => Schema
    case ReadAdvisors => Schema
    case ReadLogs => SchemaAndLog
    case ReadPolicies => Schema
    case RunSql => SchemaAndLogAndData
  }

  predicate NeedsApproval(tool: Tool) { tool.RunSql? }

  predicate Allows(level: Level, tool: Tool) {
    Rank(level) >= Rank(ToolLevel(tool))
  }

  function Named(name: Text): Option<Tool> {
    if name == ToolName(DescribeTables) then Some(DescribeTables)
    else if name == ToolName(ReadAdvisors) then Some(ReadAdvisors)
    else if name == ToolName(ReadLogs) then Some(ReadLogs)
    else if name == ToolName(ReadPolicies) then Some(ReadPolicies)
    else if name == ToolName(RunSql) then Some(RunSql)
    else None
  }

  /** `toolRequest`. */
  function Request(reply: Text): Option<Text> {
    var at := IndexOf(reply, TOOL_FENCE);
    if at == -1 then None
    else
      var rest := reply[at + |TOOL_FENCE|..];
      var end := IndexOf(rest, CODE_FENCE);
      Some(Trim(if end == -1 then rest else rest[..end]))
  }

  /** `withoutToolBlock`. */
  function WithoutBlock(reply: Text): Text {
    var at := IndexOf(reply, TOOL_FENCE);
    if at == -1 then reply
    else
      var end := IndexOf(reply, CODE_FENCE, at + |TOOL_FENCE|);
      Trim(reply[..at] + if end == -1 then [] else reply[end + |CODE_FENCE|..])
  }

  datatype Verdict =
    | Call(tool: Tool, sql: Option<Text>)
    | Refusal(name: Option<Tool>, needs: Option<Level>, refused: Text)

  /** The rejection message of a statement the read-only gate refuses; the gate itself is not modelled. */
  type Gate = Text -> Option<Text>

  function StringOf(value: Option<Json.Json>): Option<Text> {
    match value
    case Some(Str(s)) => Some(s)
    case _ => None
  }

  /** `validateTool`. */
  function Validate(raw: Text, level: Level, gate: Gate): Verdict {
    match Json.Parse(raw)
    case None => Refusal(None, None, Lit("that tool request was not valid JSON"))
    case Some(parsed) =>
      if !parsed.Obj? && !parsed.Arr? then Refusal(None, None, Lit("a tool request must be a JSON object"))
      else
        var members := if parsed.Obj? then parsed.members else [];
        var name := StringOf(Json.Get(members, Lit("name")));
        if name.None? then Refusal(None, None, Lit("there is no tool named (unnamed)"))
        else if Named(name.value).None? then Refusal(None, None, Lit("there is no tool named ") + Capped(name, 40))
        else ValidateNamed(Named(name.value).value, StringOf(Json.Get(members, Lit("sql"))), level, gate)
  }

  function ValidateNamed(tool: Tool, sql: Option<Text>, level: Level, gate: Gate): Verdict {
    if !Allows(level, tool) then
      Refusal(Some(tool), Some(ToolLevel(tool)),
        ToolName(tool) + Lit(" needs the ") + LevelName(ToolLevel(tool))
        + Lit(" data-sharing level and this deployment is set to ") + LevelName(level))
    else if !tool.RunSql? then Call(tool, None)
    else
      var statement := Capped(sql, STATEMENT_CAP);
      if statement == [] then Refusal(None, None, Lit("runSql needs a `sql` string"))
      else
        match gate(statement)
        case None => Call(RunSql, Some(statement))
        case Some(message) => Refusal(Some(RunSql), None, Lit("that statement was refused: ") + message)
  }

  /** The string under `key` of a request that is an object. */
  ghost predicate Says(raw: Text, key: Text, s: Text) {
    Json.Parse(raw).Some? && Json.Parse(raw).value.Obj? && Json.Get(Json.Parse(raw).value.members, key) == Some(Json.Str(s))
  }

  /** A request that validates names its tool, which is within the level; a statement in it is the one requested, capped,
      non-empty, and passes the gate. */
  lemma ValidatedCall(raw: Text, level: Level, gate: Gate)
    ensures Validate(raw, level, gate).Call? ==>
      var call := Validate(raw, level, gate);
      Says(raw, Lit("name"), ToolName(call.tool)) && Allows(level, call.tool) && (call.sql.Some? <==> call.tool.RunSql?)
      && (call.sql.Some? ==> exists sql :: Says(raw, Lit("sql"), sql) && call.sql.value == Capped(Some(sql), STATEMENT_CAP))
      && (call.sql.Some? ==> (
        call.sql.value != [] && gate(call.sql.value).None? && Harmless(call.sql.value)
        && |call.sql.value| <= STATEMENT_CAP && IsCapped(call.sql.value, STATEMENT_CAP)))
  {
    if Validate(raw, level, gate).Call? {
      NothingCapped();
      hide Lit, Capped, Json.Parse, Json.Get, Harmless, ToolName, Named, IsCapped, Allows;
      var members := if Json.Parse(raw).value.Obj? then Json.Parse(raw).value.members else [];
      assert members != [] by {
        NoMembers();
      }
      NameGiven(Validate(raw, level, gate).tool, StringOf(Json.Get(members, Lit("name"))).value);
      var sql := StringOf(Json.Get(members, Lit("sql")));
      CappedHarmless(sql, STATEMENT_CAP);
      if sql.Some? {
        assert Says(raw, Lit("sql"), sql.value);
      }
    }
  }

  /** Exactly the requests that validate. */
  lemma CallExactly(raw: Text, level: Level, gate: Gate, tool: Tool, sql: Option<Text>)
    ensures Validate(raw, level, gate) == Call(tool, sql) <==>
      Says(raw, Lit("name"), ToolName(tool)) && Allows(level, tool) && (
        if tool.RunSql? then
          sql.Some? && sql.value != [] && gate(sql.value).None?
          && exists q :: Says(raw, Lit("sql"), q) && sql.value == Capped(Some(q), STATEMENT_CAP)
        else sql.None?)
  {
    ValidatedCall(raw, level, gate);
    NothingCapped();
    if Says(raw, Lit("name"), ToolName(tool)) {
      NameGiven(tool, ToolName(tool));
    }
    hide Lit, Capped, Json.Parse, Json.Get, Harmless, ToolName, Named, IsCapped, Allows;
  }

  /** A request for a tool above the level is refused naming the level it needs, and only such a request is. */
  lemma BelowLevel(raw: Text, level: Level, gate: Gate, tool: Tool)
    requires Says(raw, Lit("name"), ToolName(tool)) && !Allows(level, tool)
    ensures var verdict := Validate(raw, level, gate);
      verdict.Refusal? && verdict.name == Some(tool) && verdict.needs == Some(ToolLevel(tool))
  {
    NameGiven(tool, ToolName(tool));
    hide Lit, Json.Parse, Json.Get, ToolName, Named, Allows, LevelName;
  }

  lemma LevelNamed(raw: Text, level: Level, gate: Gate)
    ensures var verdict := Validate(raw, level, gate);
      verdict.Refusal? && verdict.needs.Some? ==>
        verdict.name.Some? && Says(raw, Lit("name"), ToolName(verdict.name.value)) && !Allows(level, verdict.name.value)
  {
    NoMembers();
    hide Lit, Capped, Json.Parse, Json.Get, ToolName, Named, Allows, LevelName;
    var verdict := Validate(raw, level, gate);
    if verdict.Refusal? && verdict.needs.Some? {
      NameGiven(verdict.name.value, StringOf(Json.Get(Json.Parse(raw).value.members, Lit("name"))).value);
    }
  }

  lemma NoMembers()
    ensures Json.Get([], Lit("name")).None?
  {}

  lemma NothingCapped()
    ensures Capped(None, STATEMENT_CAP) == []
  {}

  lemma NameGiven(tool: Tool, name: Text)
    ensures Named(name) == Some(tool) <==> name == ToolName(tool)
  {
    NamesDiffer();
    hide Lit;
  }

  /** The names are told apart by their lengths, and the two of one length by their fifth letters. */
  lemma NamesDiffer()
    ensures |Lit("describeTables")| == 14 && |Lit("readAdvisors")| == 12 && |Lit("readLogs")| == 8
    ensures |Lit("readPolicies")| == 12 && |Lit("runSql")| == 6 && Lit("readAdvisors")[4] != Lit("readPolicies")[4]
  {}

  /** What each level admits: nothing; what reads the schema; also the log; also statements on the data. */
  lemma LevelsAdmit(tool: Tool)
    ensures !Allows(Disabled, tool)
    ensures Allows(Schema, tool) <==> tool in {DescribeTables, ReadAdvisors, ReadPolicies}
    ensures Allows(SchemaAndLog, tool) <==> tool != RunSql
    ensures Allows(SchemaAndLogAndData, tool)
  {}

  // The block a reply holds

  /** `reply` is `before`, a tool fence, the block's text and, when the block is closed, a code fence and `after`; the
      fences are the first there are. */
  ghost predicate ToolBlock(reply: Text, before: Text, inside: Text, closed: bool, after: Text) {
    && reply == before + TOOL_FENCE + inside + (if closed then CODE_FENCE + after else [])
    && !Contains(before, TOOL_FENCE)
    && (if closed then !Contains(inside + [TICK, TICK], CODE_FENCE) else after == [] && !Contains(inside, CODE_FENCE))
  }

  /** Every reply with a fence is such a text. */
  lemma BlockOf(reply: Text) returns (before: Text, inside: Text, closed: bool, after: Text)
    requires Contains(reply, TOOL_FENCE)
    ensures ToolBlock(reply, before, inside, closed, after)
  {
    FenceFacts();
    hide Lit, TOOL_FENCE, CODE_FENCE, TICKS;
    var at := IndexOf(reply, TOOL_FENCE);
    before := reply[..at];
    var rest := reply[at + 7..];
    FirstOf(reply, TOOL_FENCE, at, at);
    assert reply[at..at + 7] == TOOL_FENCE;
    assert reply == before + TOOL_FENCE + rest;
    inside, closed, after := CodeSplit(rest);
    hide *;
    var tail := if closed then CODE_FENCE + after else [];
    assert before + TOOL_FENCE + (inside + tail) == before + TOOL_FENCE + inside + tail;
    BlockIs(reply, before, inside, closed, after);
  }

  lemma BlockIs(reply: Text, before: Text, inside: Text, closed: bool, after: Text)
    requires reply == before + TOOL_FENCE + inside + if closed then CODE_FENCE + after else []
    requires !Contains(before, TOOL_FENCE)
    requires if closed then !Contains(inside + [TICK, TICK], CODE_FENCE) else after == [] && !Contains(inside, CODE_FENCE)
    ensures ToolBlock(reply, before, inside, closed, after)
  {
    hide Contains, Lit;
  }

  lemma CodeSplit(rest: Text) returns (inside: Text, closed: bool, after: Text)
    ensures rest == inside + if closed then CODE_FENCE + after else []
    ensures if closed then !Contains(inside + [TICK, TICK], CODE_FENCE) else after == [] && !Contains(inside, CODE_FENCE)
  {
    FenceFacts();
    hide Lit, CODE_FENCE;
    var end := IndexOf(rest, CODE_FENCE);
    closed := end != -1;
    inside, after := rest, [];
    if closed {
      inside, after := rest[..end], rest[end + 3..];
      FirstOf(rest, CODE_FENCE, end, end + 2);
      CodeFenceAt(rest, end);
    }
  }

  lemma CodeFenceAt(s: Text, i: nat)
    requires At(s, CODE_FENCE, i)
    ensures i + 3 <= |s| && s == s[..i] + CODE_FENCE + s[i + 3..] && s[..i + 2] == s[..i] + [TICK, TICK]
  {
    FenceFacts();
    hide Lit;
    assert s[i..i + 3] == TICKS;
    assert s[i] == s[i..i + 3][0] && s[i + 1] == s[i..i + 3][1];
  }

  /** Nothing occurs in a piece that ends before the first occurrence does. */
  lemma FirstOf(s: Text, p: Text, first: nat, hi: nat)
    requires p != [] && At(s, p, first) && (forall i | 0 <= i < first :: !At(s, p, i)) && first <= hi < first + |p|
    ensures hi <= |s| && !Contains(s[..hi], p)
  {
    forall i ensures !At(s[..hi], p, i) {
      if At(s[..hi], p, i) {
        assert s[..hi] == s[0..hi];
        PieceAt(s, 0, hi, p, i);
      }
    }
  }

  /** What is asked for is the block's text, and what is left of the reply is what stands around the block. */
  lemma BlockRead(reply: Text, before: Text, inside: Text, closed: bool, after: Text)
    requires ToolBlock(reply, before, inside, closed, after)
    ensures Contains(reply, TOOL_FENCE)
    ensures Request(reply) == Some(Trim(inside)) && WithoutBlock(reply) == Trim(before + after)
  {
    var tail := if closed then CODE_FENCE + after else [];
    hide *;
    BlockParts(reply, before, inside, closed, after);
    assert before + TOOL_FENCE + inside + tail == before + TOOL_FENCE + (inside + tail);
    FenceStart(before, inside + tail);
    if closed {
      CodeFirst(inside, after);
    } else {
      assert inside + [] == inside;
      NoCode(inside);
    }
    BlockAround(before, inside, tail);
    BlockAfter(before, inside, closed, after);
  }

  /** Reading from where the fences are. */
  lemma BlockAround(before: Text, inside: Text, tail: Text)
    requires IndexOf(before + TOOL_FENCE + (inside + tail), TOOL_FENCE) == |before|
    requires IndexOf(inside + tail, CODE_FENCE) == if tail == [] then -1 else |inside|
    ensures var reply := before + TOOL_FENCE + (inside + tail);
      && Contains(reply, TOOL_FENCE) && Request(reply) == Some(Trim(inside))
      && |before| + 7 <= |reply|
      && WithoutBlock(reply) == Without(reply, |before|, IndexOf(reply, CODE_FENCE, |before| + 7))
      && IndexOf(reply, CODE_FENCE, |before| + 7) == if tail == [] then -1 else |before| + 7 + |inside|
  {
    FenceLengths();
    hide *;
    var reply := before + TOOL_FENCE + (inside + tail);
    assert reply[|before| + 7..] == inside + tail;
    assert (inside + tail)[..|inside|] == inside && (tail == [] ==> inside + tail == inside);
    HeldAt(reply, |before|);
    RequestIs(reply);
    CodeFrom(reply, |before| + 7);
  }

  lemma HeldAt(reply: Text, at: nat)
    requires at == IndexOf(reply, TOOL_FENCE)
    ensures Contains(reply, TOOL_FENCE)
  {
    hide Lit;
    assert At(reply, TOOL_FENCE, at);
  }

  function Without(reply: Text, at: nat, end: int): Text
    requires at <= |reply|
  {
    Trim(reply[..at] + if end < 0 || end + 3 > |reply| then [] else reply[end + 3..])
  }

  lemma FenceLengths()
    ensures |TOOL_FENCE| == 7 && |CODE_FENCE| == 3
  {}

  lemma FoundWithin(s: Text, p: Text, from: nat)
    ensures IndexOf(s, p, from) != -1 ==> from <= IndexOf(s, p, from) <= |s| - |p|
  {}

  lemma RequestIs(reply: Text)
    requires IndexOf(reply, TOOL_FENCE) != -1
    ensures 0 <= IndexOf(reply, TOOL_FENCE) <= |reply| - 7
    ensures var rest := reply[IndexOf(reply, TOOL_FENCE) + 7..];
      IndexOf(rest, CODE_FENCE) == -1 ==> Request(reply) == Some(Trim(rest))
    ensures var rest := reply[IndexOf(reply, TOOL_FENCE) + 7..];
      IndexOf(rest, CODE_FENCE) != -1 ==>
        0 <= IndexOf(rest, CODE_FENCE) <= |rest| && Request(reply) == Some(Trim(rest[..IndexOf(rest, CODE_FENCE)]))
    ensures var at := IndexOf(reply, TOOL_FENCE); WithoutBlock(reply) == Without(reply, at, IndexOf(reply, CODE_FENCE, at + 7))
  {
    FenceLengths();
    hide Lit, Trim, TOOL_FENCE, CODE_FENCE, TICKS, IndexOf, At;
    FoundWithin(reply, TOOL_FENCE, 0);
    var at := IndexOf(reply, TOOL_FENCE);
    FoundWithin(reply, CODE_FENCE, at + 7);
    FoundWithin(reply[at + 7..], CODE_FENCE, 0);
  }

  lemma BlockAfter(before: Text, inside: Text, closed: bool, after: Text)
    ensures var tail := if closed then CODE_FENCE + after else [];
      var reply := before + TOOL_FENCE + (inside + tail);
      Without(reply, |before|, if closed then |before| + 7 + |inside| else -1) == Trim(before + if closed then after else [])
  {
    FenceLengths();
    hide Lit, Trim, TOOL_FENCE, CODE_FENCE, TICKS;
    var tail := if closed then CODE_FENCE + after else [];
    var reply := before + TOOL_FENCE + (inside + tail);
    assert reply[..|before|] == before;
    if closed {
      assert reply[|before| + 7 + |inside| + 3..] == after;
    }
  }

  lemma BlockParts(reply: Text, before: Text, inside: Text, closed: bool, after: Text)
    requires ToolBlock(reply, before, inside, closed, after)
    ensures reply == before + TOOL_FENCE + inside + (if closed then CODE_FENCE + after else []) && !Contains(before, TOOL_FENCE)
    ensures closed ==> !Contains(inside + [TICK, TICK], CODE_FENCE)
    ensures !closed ==> after == [] && !Contains(inside, CODE_FENCE)
    ensures |TOOL_FENCE| == 7 && |CODE_FENCE| == 3
  {
    FenceFacts();
    hide Contains, Lit;
  }

  lemma CodeLength()
    ensures |CODE_FENCE| == 3 && CODE_FENCE[..2] == [TICK, TICK]
  {
    FenceFacts();
  }

  lemma CodeFrom(reply: Text, from: nat)
    requires from <= |reply|
    ensures var end := IndexOf(reply[from..], CODE_FENCE);
      IndexOf(reply, CODE_FENCE, from) == if end == -1 then -1 else from + end
  {
    hide Lit;
    var rest := reply[from..];
    assert rest == reply[from..|reply|];
    var end, whole := IndexOf(rest, CODE_FENCE), IndexOf(reply, CODE_FENCE, from);
    if end != -1 {
      PieceAt(reply, from, |reply|, CODE_FENCE, end);
    }
    if whole != -1 {
      AtPiece(reply, from, |reply|, CODE_FENCE, whole);
    }
  }

  lemma FenceStart(before: Text, rest: Text)
    requires !Contains(before, TOOL_FENCE)
    ensures IndexOf(before + TOOL_FENCE + rest, TOOL_FENCE) == |before|
  {
    FenceEnds();
    hide Lit, TOOL_FENCE;
    var s := before + TOOL_FENCE + rest;
    assert s[|before|..|before| + 7] == TOOL_FENCE;
    assert At(s, TOOL_FENCE, |before|);
    var at := IndexOf(s, TOOL_FENCE);
    if at < |before| {
      FenceApart(before, rest, at);
    }
  }

  /** A fence does not overlap a fence. */
  lemma FenceApart(before: Text, rest: Text, i: nat)
    requires i < |before| && At(before + TOOL_FENCE + rest, TOOL_FENCE, i)
    ensures At(before, TOOL_FENCE, i)
  {
    FenceSpelled();
    hide Lit;
    var s := before + TOOL_FENCE + rest;
    var found := s[i..i + 7];
    assert found == TOOL_FENCE;
    assert i + 7 <= |before| by {
      assert found[1] == s[i + 1] && found[2] == s[i + 2] && found[3] == s[i + 3];
      assert found[4] == s[i + 4] && found[5] == s[i + 5] && found[6] == s[i + 6];
      assert s[|before|] == TICK && s[|before| + 1] == TICK;
    }
    assert before[i..i + 7] == found;
  }

  lemma FenceSpelled()
    ensures TOOL_FENCE == [TICK, TICK, TICK, 116, 111, 111, 108]
  {}

  lemma CodeFirst(inside: Text, after: Text)
    requires !Contains(inside + [TICK, TICK], CODE_FENCE)
    ensures IndexOf(inside + (CODE_FENCE + after), CODE_FENCE) == |inside|
  {
    CodeLength();
    hide Lit, CODE_FENCE;
    FirstThere(inside, CODE_FENCE, after);
  }

  /** A text stands first where it is put, when what comes before it and its own beginning do not hold it. */
  lemma FirstThere<E>(x: seq<E>, p: seq<E>, y: seq<E>)
    requires p != [] && !Contains(x + p[..|p| - 1], p)
    ensures IndexOf(x + (p + y), p) == |x|
  {
    var s := x + (p + y);
    assert s[|x|..|x| + |p|] == p;
    assert At(s, p, |x|);
    var at := IndexOf(s, p);
    if at < |x| {
      assert s[0..|x| + |p| - 1] == x + p[..|p| - 1];
      AtPiece(s, 0, |x| + |p| - 1, p, at);
    }
  }

  lemma NoCode(inside: Text)
    requires !Contains(inside, CODE_FENCE)
    ensures IndexOf(inside, CODE_FENCE) == -1
  {
    hide Lit, CODE_FENCE;
  }

  // A fence survives trimming

  lemma FenceEnds()
    ensures |TOOL_FENCE| == 7 && !IsSpace(TOOL_FENCE[0]) && !IsSpace(TOOL_FENCE[6])
  {}

  lemma TrimKeepsFence(raw: Text)
    ensures Contains(raw, TOOL_FENCE) <==> Contains(Trim(raw), TOOL_FENCE)
  {
    FenceEnds();
    var lo, hi := TrimCuts(raw);
    hide Lit, Trim, IsSpace;
    if Contains(Trim(raw), TOOL_FENCE) {
      var i :| At(Trim(raw), TOOL_FENCE, i);
      PieceAt(raw, lo, hi, TOOL_FENCE, i);
    }
    if Contains(raw, TOOL_FENCE) {
      var i :| At(raw, TOOL_FENCE, i);
      FenceUnit(raw, i, 0);
      FenceUnit(raw, i, 6);
      AtPiece(raw, lo, hi, TOOL_FENCE, i);
    }
  }

  lemma FenceUnit(raw: Text, i: int, k: nat)
    requires At(raw, TOOL_FENCE, i) && k < |TOOL_FENCE|
    ensures 0 <= i + k < |raw| && raw[i + k] == TOOL_FENCE[k]
  {
    assert raw[i..i + |TOOL_FENCE|][k] == raw[i + k];
  }

  /** Trimming does not matter: a reply asks for a tool exactly when its raw text holds a fence. */
  lemma RequestExactly(raw: Text)
    ensures Request(Trim(raw)).None? <==> !Contains(raw, TOOL_FENCE)
  {
    TrimKeepsFence(raw);
    hide Trim, Lit;
    var at := IndexOf(Trim(raw), TOOL_FENCE);
    assert Request(Trim(raw)).None? <==> at == -1;
    if at != -1 {
      assert At(Trim(raw), TOOL_FENCE, at);
    }
  }

  // Resuming an approved statement

  const TICK: unit := 96

  function RunSqlObject(sql: Text): Json.Json {
    Json.Obj([(Lit("name"), Json.Str(Lit("runSql"))), (Lit("sql"), Json.Str(sql))])
  }

  /** Line 923: the reply an approval stands for in round 0. */
  function Resumed(sql: Text): Text {
    TOOL_FENCE + [LF] + Json.Print(RunSqlObject(sql)) + [LF] + CODE_FENCE
  }

  /** What comes before the statement's own text in the printed request. */
  function Lead(): Text {
    [Json.LBRACE] + Json.Quote(Lit("name")) + [Json.COLON] + Json.Quote(Lit("runSql")) + [Json.COMMA]
    + Json.Quote(Lit("sql")) + [Json.COLON] + [Json.QUOTE]
  }

  lemma PrintedRequest(sql: Text)
    ensures Json.Print(RunSqlObject(sql)) == Lead() + Json.Escape(sql) + [Json.QUOTE, Json.RBRACE]
  {
    hide Lit, Json.Escape;
    var members := RunSqlObject(sql).members;
    var nameKey, tool, sqlKey := Json.Quote(Lit("name")), Json.Quote(Lit("runSql")), Json.Quote(Lit("sql"));
    TwoMembers(members);
    assert Json.PrintMember(members[0]) == nameKey + [Json.COLON] + tool;
    assert Json.PrintMember(members[1]) == sqlKey + [Json.COLON] + Json.Quote(sql);
    assert Json.Quote(sql) == [Json.QUOTE] + Json.Escape(sql) + [Json.QUOTE];
    var body := Json.Escape(sql);
    hide *;
    assert [Json.LBRACE] + (nameKey + [Json.COLON] + tool + [Json.COMMA] + (sqlKey + [Json.COLON] + ([Json.QUOTE] + body + [Json.QUOTE]))) + [Json.RBRACE]
      == [Json.LBRACE] + nameKey + [Json.COLON] + tool + [Json.COMMA] + sqlKey + [Json.COLON] + [Json.QUOTE] + body + [Json.QUOTE, Json.RBRACE];
  }

  lemma TwoMembers(members: seq<(Text, Json.Json)>)
    requires |members| == 2
    ensures Json.Print(Json.Obj(members))
      == [Json.LBRACE] + (Json.PrintMember(members[0]) + [Json.COMMA] + Json.PrintMember(members[1])) + [Json.RBRACE]
  {
    hide Json.PrintMember;
    assert |members[1..]| == 1 && members[1..][0] == members[1];
    assert Json.PrintMembers(members[1..]) == Json.PrintMember(members[1]);
  }

  // Backticks

  const TICKS: Text := [TICK, TICK, TICK]

  function LeadTicks(s: Text): (n: nat)
    ensures n <= |s| && forall i | 0 <= i < n :: s[i] == TICK
    ensures n < |s| ==> s[n] != TICK
  {
    if s == [] || s[0] != TICK then 0 else 1 + LeadTicks(s[1..])
  }

  predicate HasTicks(s: Text) {
    s != [] && (LeadTicks(s) >= 3 || HasTicks(s[1..]))
  }

  lemma {:induction false} HasTicksIsContains(s: Text)
    ensures HasTicks(s) <==> Contains(s, TICKS)
  {
    if s != [] {
      HasTicksIsContains(s[1..]);
      if At(s, TICKS, 0) {
        assert s[0] == s[..3][0] && s[1] == s[..3][1] && s[2] == s[..3][2];
      }
      if LeadTicks(s) >= 3 {
        assert s[0..3] == TICKS;
        assert At(s, TICKS, 0);
      }
      assert s[1..] == s[1..|s|];
      if HasTicks(s[1..]) {
        var i :| At(s[1..], TICKS, i);
        PieceAt(s, 1, |s|, TICKS, i);
      }
      if Contains(s, TICKS) && !At(s, TICKS, 0) {
        var i :| At(s, TICKS, i);
        AtPiece(s, 1, |s|, TICKS, i);
      }
    }
  }

  lemma {:induction false} SkipTickless(a: Text, b: Text)
    requires forall i | 0 <= i < |a| :: a[i] != TICK
    ensures HasTicks(a + b) == HasTicks(b)
  {
    if a == [] {
      assert a + b == b;
    } else {
      SkipTickless(a[1..], b);
      assert (a + b)[1..] == a[1..] + b;
    }
  }

  lemma EscapeUnitTicks(c: unit)
    ensures c == TICK ==> Json.EscapeUnit(c) == [TICK]
    ensures c != TICK ==> forall i | 0 <= i < |Json.EscapeUnit(c)| :: Json.EscapeUnit(c)[i] != TICK
  {}

  /** Escaping neither makes nor breaks a run of backticks. */
  lemma {:induction false} EscapeTicks(s: Text)
    ensures LeadTicks(Json.Escape(s)) == LeadTicks(s)
    ensures HasTicks(Json.Escape(s)) == HasTicks(s)
  {
    hide Json.EscapeUnit;
    if s != [] {
      if |s| > 1 && Json.IsHigh(s[0]) && Json.IsLow(s[1]) {
        EscapeTicks(s[2..]);
        SkipTickless(s[..2], Json.Escape(s[2..]));
        SkipTickless(s[..2], s[2..]);
        assert s[..2] + s[2..] == s;
      } else {
        EscapeTicks(s[1..]);
        EscapeUnitTicks(s[0]);
        var unit, rest := Json.EscapeUnit(s[0]), Json.Escape(s[1..]);
        if s[0] == TICK {
          assert (unit + rest)[1..] == rest;
        } else {
          SkipTickless(unit, rest);
          SkipTickless([s[0]], s[1..]);
          assert [s[0]] + s[1..] == s;
        }
      }
    }
  }

  // The request cut inside the statement does not parse

  lemma {:induction false} Unterminated(s: Text, q: Text)
    requires q <= Json.Escape(s)
    ensures Json.ParseString(q).None?
  {
    hide Json.EscapeUnit, Json.ParseString;
    if s == [] {
      NothingToParse();
    } else if |s| > 1 && Json.IsHigh(s[0]) && Json.IsLow(s[1]) {
      var rest := Json.Escape(s[2..]);
      if |q| >= 2 {
        assert q == s[..2] + rest[..|q| - 2];
        Unterminated(s[2..], rest[..|q| - 2]);
        Json.ParsePlainUnit(s[1], rest[..|q| - 2]);
        Json.ParsePlainUnit(s[0], [s[1]] + rest[..|q| - 2]);
        assert q == [s[0]] + ([s[1]] + rest[..|q| - 2]);
      } else if |q| == 1 {
        NothingToParse();
        Json.ParsePlainUnit(s[0], []);
        assert q == [s[0]] + [];
      } else {
        NothingToParse();
      }
    } else {
      var unit, rest := Json.EscapeUnit(s[0]), Json.Escape(s[1..]);
      if |q| >= |unit| {
        var tail := rest[..|q| - |unit|];
        assert q == unit + tail;
        Unterminated(s[1..], tail);
        Json.ParseEscapedUnit(s[0], tail);
      } else {
        assert q == unit[..|q|];
        CutEscape(s[0], |q|);
      }
    }
  }

  lemma NothingToParse()
    ensures Json.ParseString([]).None?
  {}

  lemma CutEscape(c: unit, n: nat)
    requires n < |Json.EscapeUnit(c)|
    ensures Json.ParseString(Json.EscapeUnit(c)[..n]).None?
  {
    hide Json.HexDigit;
  }

  lemma MemberFails(key: Text, q: Text)
    requires Json.ParseString(q).None?
    ensures Json.ParseMember(Json.Quote(key) + [Json.COLON] + [Json.QUOTE] + q).None?
  {
    hide Json.ParseString, Json.Escape;
    var t := Json.Quote(key) + [Json.COLON] + [Json.QUOTE] + q;
    var after := [Json.COLON] + [Json.QUOTE] + q;
    Json.ParseEscaped(key, after);
    assert t[1..] == Json.Escape(key) + [Json.QUOTE] + after;
    assert after[1..] == [Json.QUOTE] + q;
    assert ([Json.QUOTE] + q)[1..] == q;
  }

  lemma ObjectFails(first: (Text, Json.Json), second: Text)
    requires Json.WellFormed(first.1) && Json.ParseMember(second).None?
    ensures Json.Parse([Json.LBRACE] + Json.PrintMember(first) + [Json.COMMA] + second).None?
  {
    hide *;
    var inner := Json.PrintMember(first) + [Json.COMMA] + second;
    MembersFail(first, second);
    BraceFails(inner);
    assert [Json.LBRACE] + Json.PrintMember(first) + [Json.COMMA] + second == [Json.LBRACE] + inner;
  }

  lemma MembersFail(first: (Text, Json.Json), second: Text)
    requires Json.WellFormed(first.1) && Json.ParseMember(second).None?
    ensures var inner := Json.PrintMember(first) + [Json.COMMA] + second;
      inner[0] == Json.QUOTE && Json.ParseMembers(inner).None?
  {
    var rest := [Json.COMMA] + second;
    assert Json.PrintMember(first)[0] == Json.QUOTE;
    Json.ParsePrintedMember(first, rest);
    hide Json.PrintMember, Json.ParseMember, Json.WellFormed;
    assert Json.PrintMember(first) + [Json.COMMA] + second == Json.PrintMember(first) + rest;
    assert rest[1..] == second;
  }

  lemma BraceFails(inner: Text)
    requires inner != [] && inner[0] == Json.QUOTE && Json.ParseMembers(inner).None?
    ensures Json.Parse([Json.LBRACE] + inner).None?
  {
    hide Json.ParseMembers, Json.ParseItems, Json.ParseScalar, Json.ParseString;
    assert ([Json.LBRACE] + inner)[1..] == inner;
  }

  /** The printed request, cut anywhere inside the statement's text, is not JSON. */
  lemma CutRequestFails(sql: Text, q: Text)
    requires q <= Json.Escape(sql)
    ensures Json.Parse(Lead() + q).None?
  {
    hide *;
    Unterminated(sql, q);
    MemberFails(Lit("sql"), q);
    NameMember();
    var name := (Lit("name"), Json.Str(Lit("runSql")));
    var second := Json.Quote(Lit("sql")) + [Json.COLON] + [Json.QUOTE] + q;
    ObjectFails(name, second);
    assert [Json.LBRACE] + Json.PrintMember(name) + [Json.COMMA] + second == Lead() + q;
  }

  lemma NameMember()
    ensures Json.WellFormed(Json.Str(Lit("runSql")))
    ensures Lead() == [Json.LBRACE] + Json.PrintMember((Lit("name"), Json.Str(Lit("runSql")))) + [Json.COMMA]
      + Json.Quote(Lit("sql")) + [Json.COLON] + [Json.QUOTE]
  {
    hide Lit, Json.Escape;
  }

  // The approval round trip

  lemma LeadFacts()
    ensures |Lead()| > 1 && Lead()[0] == Json.LBRACE && Lead()[|Lead()| - 1] == Json.QUOTE
    ensures TICK !in Lead()
  {
    NamesTickless();
    QuoteTickless(Lit("name"));
    QuoteTickless(Lit("runSql"));
    QuoteTickless(Lit("sql"));
    hide Lit, Json.Quote;
  }

  lemma QuoteTickless(s: Text)
    requires TICK !in s
    ensures TICK !in Json.Quote(s)
  {
    EscapeTickless(s);
  }

  lemma NamesTickless()
    ensures TICK !in Lit("name") && TICK !in Lit("runSql") && TICK !in Lit("sql")
  {}

  lemma {:induction false} EscapeTickless(s: Text)
    requires TICK !in s
    ensures TICK !in Json.Escape(s)
  {
    hide Json.EscapeUnit;
    if s != [] {
      if |s| > 1 && Json.IsHigh(s[0]) && Json.IsLow(s[1]) {
        EscapeTickless(s[2..]);
      } else {
        EscapeTickless(s[1..]);
        EscapeUnitTicks(s[0]);
      }
    }
  }

  lemma FenceFacts()
    ensures CODE_FENCE == TICKS && |TOOL_FENCE| == 7 && TOOL_FENCE[0] == TICK
    ensures !IsSpace(TICK) && !IsSpace(Json.LBRACE) && !IsSpace(Json.RBRACE) && !IsSpace(Json.QUOTE) && IsSpace(LF)
  {}

  /** The printed request: what `Request` must find between the fences. */
  function Printed(sql: Text): Text {
    Json.Print(RunSqlObject(sql))
  }

  /** What follows the opening fence. */
  function AfterFence(sql: Text): Text {
    [LF] + Printed(sql) + [LF] + TICKS
  }

  lemma ResumedRest(sql: Text)
    ensures Trim(Resumed(sql)) == Resumed(sql)
    ensures IndexOf(Resumed(sql), TOOL_FENCE) == 0 && Resumed(sql)[|TOOL_FENCE|..] == AfterFence(sql)
  {
    FenceFacts();
    var r := Resumed(sql);
    assert r == TOOL_FENCE + AfterFence(sql);
    assert r[|r| - 1] == TICK && r[0] == TICK;
    hide Lit, Json.Print, IsSpace;
    TrimTrimmed(r);
    assert r[0..|TOOL_FENCE|] == TOOL_FENCE;
  }

  /** Where the body of a fence ends: at the first run of three backticks. */
  lemma FirstTicks(x: Text)
    requires !HasTicks(x)
    ensures IndexOf(x + [LF] + TICKS, TICKS) == |x| + 1
  {
    HasTicksIsContains(x);
    hide HasTicks;
    var s := x + [LF] + TICKS;
    assert s[|x| + 1..|x| + 4] == TICKS;
    assert At(s, TICKS, |x| + 1);
    var at := IndexOf(s, TICKS);
    NoneEarlier(x, at);
  }

  lemma NoneEarlier(x: Text, at: int)
    requires !Contains(x, TICKS) && At(x + [LF] + TICKS, TICKS, at)
    ensures at >= |x| + 1
  {
    Window(x, [LF], TICKS, TICKS, at);
  }

  /** A fenced block without a run of three backticks is found whole. */
  lemma BlockFound(p: Text)
    requires p != [] && !IsSpace(p[0]) && !IsSpace(p[|p| - 1]) && !HasTicks([LF] + p)
    ensures var reply := TOOL_FENCE + [LF] + p + [LF] + CODE_FENCE;
      Trim(reply) == reply && Request(reply) == Some(p)
  {
    FenceFacts();
    hide Lit, IsSpace, Trim, TICKS, HasTicks;
    var inner := [LF] + p;
    FirstTicks(inner);
    TrimLines(p);
    var rest := [LF] + p + [LF] + CODE_FENCE;
    var reply := TOOL_FENCE + [LF] + p + [LF] + CODE_FENCE;
    assert reply == TOOL_FENCE + rest;
    FenceFirst(rest);
    assert rest == inner + [LF] + CODE_FENCE;
    assert rest[..|p| + 2] == [LF] + p + [LF];
    BlockTrimmed(p);
    TrimTrimmed(reply);
  }

  lemma FenceFirst(rest: Text)
    ensures IndexOf(TOOL_FENCE + rest, TOOL_FENCE) == 0 && (TOOL_FENCE + rest)[|TOOL_FENCE|..] == rest
  {
    hide Lit;
    assert (TOOL_FENCE + rest)[0..|TOOL_FENCE|] == TOOL_FENCE;
  }

  lemma BlockTrimmed(p: Text)
    ensures Trimmed(TOOL_FENCE + [LF] + p + [LF] + CODE_FENCE)
  {
    FenceFacts();
    hide Lit, IsSpace;
    var reply := TOOL_FENCE + [LF] + p + [LF] + CODE_FENCE;
    assert reply[0] == TICK && reply[|reply| - 1] == TICK;
  }

  lemma TicklessHasNone(s: Text)
    requires TICK !in s
    ensures !HasTicks(s)
  {
    SkipTickless(s, []);
    assert s + [] == s;
  }

  lemma PrintedEnds(sql: Text)
    ensures var p := Printed(sql); p != [] && p[0] == Json.LBRACE && p[|p| - 1] == Json.RBRACE
  {
    LeadFacts();
    PrintedRequest(sql);
    hide Lead, Json.Escape, Json.Print, Lit;
  }

  lemma WholeRequest(sql: Text)
    requires !HasTicks(sql)
    ensures Request(Resumed(sql)) == Some(Printed(sql))
  {
    FenceFacts();
    PrintedEnds(sql);
    NoTicksPrinted(sql);
    hide Lit, IsSpace, Json.Print, Request, Trim, HasTicks, CODE_FENCE, TOOL_FENCE;
    BlockFound(Printed(sql));
  }

  lemma TrimLines(p: Text)
    requires p != [] && !IsSpace(p[0]) && !IsSpace(p[|p| - 1])
    ensures Trim([LF] + p + [LF]) == p
  {
    FenceFacts();
    hide IsSpace;
    var s := [LF] + p + [LF];
    assert s[1..] == p + [LF];
    assert TrimStart(s) == TrimStart(s[1..]) == p + [LF];
    assert (p + [LF])[..|p|] == p;
    assert TrimEnd(p + [LF]) == TrimEnd((p + [LF])[..|p|]);
  }

  lemma NoTicksPrinted(sql: Text)
    requires !HasTicks(sql)
    ensures !HasTicks([LF] + Printed(sql))
  {
    LeadFacts();
    EscapeTicks(sql);
    PrintedRequest(sql);
    hide Lead, Json.Escape, Json.Print;
    var body, tail := Json.Escape(sql), [Json.QUOTE, Json.RBRACE];
    TicksBeforeQuote(body, tail);
    SkipTickless([LF] + Lead(), body + tail);
    assert [LF] + Printed(sql) == [LF] + Lead() + (body + tail);
  }

  lemma {:induction false} TicksBeforeQuote(a: Text, tail: Text)
    requires tail == [Json.QUOTE, Json.RBRACE]
    ensures HasTicks(a + tail) == HasTicks(a)
    ensures LeadTicks(a + tail) == LeadTicks(a)
  {
    if a == [] {
      assert a + tail == tail;
      SkipTickless(tail, []);
      assert tail + [] == tail;
    } else {
      TicksBeforeQuote(a[1..], tail);
      assert (a + tail)[1..] == a[1..] + tail;
    }
  }

  lemma ParsesBack(sql: Text, level: Level, gate: Gate)
    ensures Validate(Printed(sql), level, gate) == ValidateNamed(RunSql, Some(sql), level, gate)
  {
    hide Lit, ValidateNamed, Json.Parse, Json.Print, Json.Get, Named, Json.WellFormed;
    RequestFields(sql);
    Json.ParsePrint(RunSqlObject(sql));
  }

  lemma RequestFields(sql: Text)
    ensures Json.WellFormed(RunSqlObject(sql))
    ensures Json.Get(RunSqlObject(sql).members, Lit("name")) == Some(Json.Str(Lit("runSql")))
    ensures Json.Get(RunSqlObject(sql).members, Lit("sql")) == Some(Json.Str(sql))
    ensures Named(Lit("runSql")) == Some(RunSql)
  {
    assert |Lit("name")| == 4 && |Lit("sql")| == 3;
    assert |Lit("runSql")| == 6 && |Lit("describeTables")| == 14 && |Lit("readAdvisors")| == 12 && |Lit("readLogs")| == 8 && |Lit("readPolicies")| == 12;
    hide Lit;
    var ms := RunSqlObject(sql).members;
    assert ms[..1] == [ms[0]];
  }

  lemma CutRequest(sql: Text)
    requires HasTicks(sql)
    ensures Request(Resumed(sql)).Some? && Json.Parse(Request(Resumed(sql)).value).None?
  {
    ResumedRest(sql);
    FenceFacts();
    hide Lit, IsSpace, Lead, Json.Escape, Json.Print, Resumed, AfterFence;
    var rest := AfterFence(sql);
    var at := CutPoint(sql);
    CutTrimmed(sql, at);
  }

  lemma TickAfter(head: Text, rest: Text, at: int)
    requires TICK !in head && 0 <= at < |head + rest| && (head + rest)[at] == TICK
    ensures at >= |head|
  {}

  lemma FirstInside(head: Text, body: Text, tail: Text, k: int) returns (at: int)
    requires TICK !in head && At(body, TICKS, k)
    ensures at == IndexOf(head + body + tail, TICKS) && |head| <= at < |head| + |body|
    ensures (head + body + tail)[..at] == head + body[..at - |head|]
  {
    var s := head + (body + tail);
    assert s == head + body + tail;
    assert s[|head|..|head| + |body|] == body;
    PieceAt(s, |head|, |head| + |body|, TICKS, k);
    at := IndexOf(s, TICKS);
    assert s[at..at + 3][0] == s[at];
    TickAfter(head, body + tail, at);
  }

  /** The first backtick run after the opening fence lies inside the statement's text. */
  lemma CutPoint(sql: Text) returns (at: int)
    requires HasTicks(sql)
    ensures at == IndexOf(AfterFence(sql), TICKS)
    ensures 1 + |Lead()| <= at < 1 + |Lead()| + |Json.Escape(sql)|
    ensures AfterFence(sql)[..at] == [LF] + Lead() + Json.Escape(sql)[..at - 1 - |Lead()|]
  {
    hide *;
    var head, body, tail := [LF] + Lead(), Json.Escape(sql), [Json.QUOTE, Json.RBRACE, LF] + TICKS;
    AfterFenceShape(sql);
    var k := TicksInBody(sql);
    at := FirstInside(head, body, tail, k);
  }

  lemma AfterFenceShape(sql: Text)
    ensures AfterFence(sql) == [LF] + Lead() + Json.Escape(sql) + ([Json.QUOTE, Json.RBRACE, LF] + TICKS)
    ensures TICK !in [LF] + Lead()
  {
    LeadFacts();
    PrintedRequest(sql);
    hide Lead, Json.Escape, Json.Print;
  }

  lemma TicksInBody(sql: Text) returns (k: int)
    requires HasTicks(sql)
    ensures At(Json.Escape(sql), TICKS, k)
  {
    EscapeTicks(sql);
    HasTicksIsContains(Json.Escape(sql));
    hide HasTicks, Json.Escape;
    k :| At(Json.Escape(sql), TICKS, k);
  }

  lemma CutTrimmed(sql: Text, at: int)
    requires 1 + |Lead()| <= at < 1 + |Lead()| + |Json.Escape(sql)|
    ensures Json.Parse(Trim([LF] + Lead() + Json.Escape(sql)[..at - 1 - |Lead()|])).None?
  {
    LeadFacts();
    FenceFacts();
    hide Lit, IsSpace, Lead, Json.Escape, Json.Parse;
    var body := Json.Escape(sql)[..at - 1 - |Lead()|];
    var s := [LF] + Lead() + body;
    var lo, hi := TrimCuts(s);
    TrimIsTrimmed(s);
    hide Trim;
    assert s[0] == LF && s[1] == Lead()[0] && s[|Lead()|] == Json.QUOTE;
    assert lo == 1 && hi >= 1 + |Lead()|;
    var q := body[..hi - 1 - |Lead()|];
    assert s[lo..hi] == Lead() + q;
    CutRequestFails(sql, q);
  }

  /** An approved statement comes back from the text it is put into exactly when the level is the top one,
      the gate accepts it, it is what `capped` leaves alone, and it holds no triple backtick. */
  lemma ResumeExact(sql: Text, level: Level, gate: Gate)
    requires sql != []
    ensures Request(Trim(Resumed(sql))).Some?
    ensures Validate(Request(Trim(Resumed(sql))).value, level, gate) == Call(RunSql, Some(sql)) <==>
      level == SchemaAndLogAndData && gate(sql).None? && Capped(Some(sql), STATEMENT_CAP) == sql && !Contains(sql, CODE_FENCE)
  {
    ResumedRest(sql);
    FenceFacts();
    HasTicksIsContains(sql);
    hide Resumed, Request, Json.Parse, Capped, Lit, Trim, Json.Get, IsSpace, HasTicks, Contains;
    if HasTicks(sql) {
      CutRequest(sql);
    } else {
      WholeRequest(sql);
      hide Validate;
      ParsesBack(sql, level, gate);
    }
  }
}
