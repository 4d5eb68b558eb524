/** The incremental reader of a model's event stream (shared/ai-prompt.ts). */
module TokenStream {
  import opened JsText
  import Json
  import opened Narrator

  const CR: unit := 13
  const CRLF: Text := [CR, LF]
  const BLANK: Text := [LF, LF]
  const DATA: Text := Lit("data:")
  const DONE: Text := Lit("[DONE]")
  const RESPONSE: Text := Lit("response")

  /** `responseText`: the string under `response` of an object. */
  function ResponseText(value: Json.Json): Option<Text> {
    if !value.Obj? then None
    else
      match Json.Get(value.members, RESPONSE)
      case Some(Str(s)) => Some(s)
      case _ => None
  }

  /** The token a line carries, if any: lines 250-272. */
  function LineTokens(line: Text): seq<Text> {
    if !(DATA <= line) then []
    else
      var payload := Trim(line[|DATA|..]);
      if payload == [] || payload == DONE then []
      else
        match Json.Parse(payload)
        case None => []
        case Some(value) =>
          match ResponseText(value)
          case None => []
          case Some(token) => if token == [] then [] else [token]
  }

  function LinesTokens(lines: seq<Text>): seq<Text> {
    if lines == [] then [] else LineTokens(lines[0]) + LinesTokens(lines[1..])
  }

  /** The tokens of a whole body: those of its lines. Frames and reads do not enter into it. */
  function TokensOf(body: Text): seq<Text> {
    LinesTokens(Split(body, LF))
  }

  lemma {:induction false} LinesTokensAppend(a: seq<Text>, b: seq<Text>)
    ensures LinesTokens(a + b) == LinesTokens(a) + LinesTokens(b)
  {
    hide LineTokens;
    if a == [] {
      assert a + b == b;
    } else {
      assert (a + b)[1..] == a[1..] + b;
      LinesTokensAppend(a[1..], b);
    }
  }

  lemma TokensAt(x: Text, y: Text)
    ensures TokensOf(x + [LF] + y) == TokensOf(x) + TokensOf(y)
  {
    SplitAt(x, LF, y);
    LinesTokensAppend(Split(x, LF), Split(y, LF));
  }

  lemma NoLine()
    ensures TokensOf([]) == [] && TokensOf([LF]) == []
  {
    EmptyLine();
    hide LineTokens;
    assert LinesTokens([[]]) == LineTokens([]) + LinesTokens([]);
    TokensAt([], []);
    assert [] + [LF] + [] == [LF];
  }

  lemma EmptyLine()
    ensures LineTokens([]) == [] && Split([], LF) == [[]]
  {
    assert |DATA| == 5;
  }

  lemma BlankLine()
    ensures BLANK == [LF, LF] && CRLF == [CR, LF]
  {}

  /** A complete frame contributes its own lines. */
  lemma TokensAtBlank(x: Text, y: Text)
    ensures TokensOf(x + BLANK + y) == TokensOf(x) + TokensOf(y)
  {
    hide *;
    TokensAt(x, [LF] + y);
    TokensAt([], y);
    NoLine();
    BlankLine();
    assert x + BLANK + y == x + [LF] + ([LF] + y);
    assert [] + [LF] + y == [LF] + y;
  }

  // What is written is read

  const SPACE: Text := [Json.SPACE]

  /** One token as the models' event streams frame it. */
  function Event(token: Text): Text {
    DATA + SPACE + Json.Print(Response(token)) + BLANK
  }

  function Response(token: Text): Json.Json {
    Json.Obj([(RESPONSE, Json.Str(token))])
  }

  /** A whole event stream, with or without its closing mark. */
  function Stream(tokens: seq<Text>, done: bool): Text {
    if tokens != [] then Event(tokens[0]) + Stream(tokens[1..], done)
    else if done then DATA + SPACE + DONE + BLANK else []
  }

  /** A data line holding an object with a string under `response` says that string, whatever else the object holds and
      whatever white space surrounds it. */
  lemma SpokenLine(lead: Text, value: Json.Json, trail: Text, token: Text)
    requires Json.WellFormed(value) && value.Obj? && Json.Get(value.members, RESPONSE) == Some(Json.Str(token))
    requires AllSpace(lead) && AllSpace(trail)
    ensures LineTokens(DATA + lead + Json.Print(value) + trail) == if token == [] then [] else [token]
  {
    var printed := Json.Print(value);
    var line := DATA + lead + printed + trail;
    ObjectEnds(value);
    Json.ParsePrint(value);
    DoneStart();
    hide *;
    PaddedPayload(lead, printed, trail);
    assert printed != DONE;
    PayloadTokens(line, value);
  }

  lemma PaddedPayload(lead: Text, t: Text, trail: Text)
    requires AllSpace(lead) && AllSpace(trail) && t != [] && Trimmed(t)
    ensures var line := DATA + lead + t + trail; DATA <= line && Trim(line[|DATA|..]) == t
  {
    TrimPadded(lead, t, trail);
    hide *;
    assert (DATA + lead + t + trail)[|DATA|..] == lead + t + trail;
  }

  lemma PayloadTokens(line: Text, value: Json.Json)
    requires DATA <= line && var payload := Trim(line[|DATA|..]);
      payload != [] && payload != DONE && Json.Parse(payload) == Some(value)
    requires value.Obj? && Json.Get(value.members, RESPONSE).Some? && Json.Get(value.members, RESPONSE).value.Str?
    ensures var token := Json.Get(value.members, RESPONSE).value.s; LineTokens(line) == if token == [] then [] else [token]
  {
    hide Json.Parse, Json.Get, Lit, Trim;
  }

  lemma DoneStart()
    ensures |DONE| == 6 && DONE[0] == Json.LBRACKET && DONE[5] == Json.RBRACKET
  {}

  predicate AllSpace(t: Text) {
    forall i | 0 <= i < |t| :: IsSpace(t[i])
  }

  lemma ObjectEnds(value: Json.Json)
    requires value.Obj?
    ensures var t := Json.Print(value);
      |t| >= 2 && t[0] == Json.LBRACE && t[|t| - 1] == Json.RBRACE && Trimmed(t)
  {
    hide Json.PrintMembers;
  }

  lemma {:induction false} TrimPadded(lead: Text, t: Text, trail: Text)
    requires AllSpace(lead) && AllSpace(trail) && t != [] && Trimmed(t)
    ensures Trim(lead + t + trail) == t
  {
    hide IsSpace;
    if lead != [] {
      assert (lead + t + trail)[1..] == lead[1..] + t + trail;
      assert Trim(lead + t + trail) == Trim(lead[1..] + t + trail);
      TrimPadded(lead[1..], t, trail);
    } else {
      assert lead + t + trail == t + trail;
      EndTrimmed(t, trail);
      assert TrimStart(t + trail) == t + trail;
    }
  }

  lemma {:induction false} EndTrimmed(t: Text, trail: Text)
    requires AllSpace(trail) && t != [] && Trimmed(t)
    ensures TrimEnd(t + trail) == t
  {
    hide IsSpace;
    if trail == [] {
      assert t + trail == t;
    } else {
      assert (t + trail)[..|t + trail| - 1] == t + trail[..|trail| - 1];
      EndTrimmed(t, trail[..|trail| - 1]);
    }
  }

  /** Every other line says nothing: no data line, an empty one, the closing mark, no JSON, no string to say. */
  lemma SilentLine(line: Text)
    requires !(DATA <= line) || Trim(line[|DATA|..]) == [] || Trim(line[|DATA|..]) == DONE
      || Json.Parse(Trim(line[|DATA|..])).None? || Wordless(Json.Parse(Trim(line[|DATA|..])).value)
    ensures LineTokens(line) == []
  {
    hide Json.Parse, Trim, Lit, Json.Get;
  }

  ghost predicate Wordless(value: Json.Json) {
    value.Obj? ==> forall s | s != [] :: Json.Get(value.members, RESPONSE) != Some(Json.Str(s))
  }

  lemma EventTokens(token: Text, rest: Text)
    requires token != []
    ensures TokensOf(Event(token) + rest) == [token] + TokensOf(rest)
  {
    var value := Response(token);
    assert Json.Get(value.members, RESPONSE) == Some(Json.Str(token));
    Json.PrintNoControl(value);
    hide Json.Print, Lit, LineTokens, TokensOf;
    var line := DATA + SPACE + Json.Print(value);
    SpokenLine(SPACE, value, [], token);
    assert line + [] == line;
    assert LF !in line by { DataPlain(); }
    PlainLine(line);
    TokensAtBlank(line, rest);
    assert Event(token) + rest == line + BLANK + rest;
  }

  lemma DataPlain()
    ensures Json.NoControl(DATA) && Json.NoControl(SPACE) && Json.NoControl(DONE)
  {}

  lemma {:induction false} PlainLine(line: Text)
    requires LF !in line
    ensures TokensOf(line) == LineTokens(line)
  {
    hide LineTokens;
    NoSplit(line, LF);
    OneLine(line);
  }

  lemma ClosingTokens()
    ensures TokensOf(DATA + SPACE + DONE + BLANK) == []
  {
    DataPlain();
    DoneStart();
    hide Lit, LineTokens, TokensOf, Trim, IsSpace;
    var line := DATA + SPACE + DONE;
    assert line[|DATA|..] == SPACE + DONE;
    assert AllSpace(SPACE) && Trimmed(DONE) by { SpaceIs(); }
    TrimPadded(SPACE, DONE, []);
    assert SPACE + DONE + [] == SPACE + DONE;
    SilentLine(line);
    PlainLine(line);
    TokensAtBlank(line, []);
    NoLine();
    assert line + BLANK + [] == DATA + SPACE + DONE + BLANK;
  }

  lemma SpaceIs()
    ensures IsSpace(Json.SPACE) && !IsSpace(Json.LBRACKET) && !IsSpace(Json.RBRACKET)
  {}

  /** The tokens of an event stream are the ones it was written from, in order. */
  lemma {:induction false} StreamTokens(tokens: seq<Text>, done: bool)
    requires forall t | t in tokens :: t != []
    ensures TokensOf(Stream(tokens, done)) == tokens
  {
    hide TokensOf, Event;
    if tokens != [] {
      assert tokens[0] in tokens && forall t | t in tokens[1..] :: t in tokens;
      EventTokens(tokens[0], Stream(tokens[1..], done));
      StreamTokens(tokens[1..], done);
    } else if done {
      ClosingTokens();
    } else {
      NoLine();
    }
  }

  /** A body that is the event stream of non-empty tokens, its lines ended either way. */
  ghost predicate WrittenAs(body: Text, tokens: seq<Text>, done: bool) {
    (forall t | t in tokens :: t != []) && (body == Stream(tokens, done) || ReplaceAll(body, CRLF, [LF]) == Stream(tokens, done))
  }

  lemma WrittenTokens(body: Text, tokens: seq<Text>, done: bool)
    requires WrittenAs(body, tokens, done)
    ensures TokensOf(body) == tokens
  {
    hide ReplaceAll, TokensOf, Stream;
    StreamTokens(tokens, done);
    BlankLine();
    TokensNormalised(body, []);
    assert body + [] == body && ReplaceAll(body, CRLF, [LF]) + [] == ReplaceAll(body, CRLF, [LF]);
  }

  // A carriage return before a line feed never matters

  lemma TrimEndExtra(s: Text)
    ensures TrimEnd(s + [CR]) == TrimEnd(s)
  {
    assert (s + [CR])[..|s|] == s;
  }

  lemma CrIsSpace()
    ensures IsSpace(CR)
  {}

  lemma {:induction false} TrimStartExtra(s: Text)
    ensures TrimStart(s + [CR]) == if TrimStart(s) == [] then [] else TrimStart(s) + [CR]
  {
    CrIsSpace();
    hide IsSpace;
    if s == [] {
      assert s + [CR] == [CR] && [CR][1..] == [];
    } else if IsSpace(s[0]) {
      TrimStartExtra(s[1..]);
      assert (s + [CR])[1..] == s[1..] + [CR];
    }
  }

  lemma TrimExtra(s: Text)
    ensures Trim(s + [CR]) == Trim(s)
  {
    TrimStartExtra(s);
    TrimEndExtra(TrimStart(s));
  }

  lemma DataPrefix(line: Text)
    ensures DATA <= line + [CR] <==> DATA <= line
  {
    assert |DATA| == 5 && DATA[4] != CR;
    hide Lit;
    if DATA <= line + [CR] {
      assert DATA == (line + [CR])[..5];
      assert |line| >= 5;
      assert (line + [CR])[..5] == line[..5];
    }
  }

  lemma LineTokensExtra(line: Text)
    ensures LineTokens(line + [CR]) == LineTokens(line)
  {
    hide Json.Parse, ResponseText, Lit, Trim;
    DataPrefix(line);
    if DATA <= line {
      TrimExtra(line[|DATA|..]);
      assert (line + [CR])[|DATA|..] == line[|DATA|..] + [CR];
    }
  }

  lemma LastLineExtra(x: Text)
    ensures TokensOf(x + [CR]) == TokensOf(x)
  {
    SplitExtra(x);
    hide Split, LinesTokens;
    ExtraTokens(Split(x, LF));
  }

  lemma {:induction false} ExtraTokens(lines: seq<Text>)
    requires |lines| >= 1
    ensures LinesTokens(WithExtra(lines)) == LinesTokens(lines)
  {
    hide LineTokens;
    if |lines| == 1 {
      LineTokensExtra(lines[0]);
      OneLine(lines[0] + [CR]);
      OneLine(lines[0]);
      assert lines == [lines[0]];
    } else {
      ExtraTokens(lines[1..]);
      assert WithExtra(lines)[1..] == WithExtra(lines[1..]);
    }
  }

  lemma OneLine(line: Text)
    ensures LinesTokens([line]) == LineTokens(line)
  {
    hide LineTokens;
    assert LinesTokens([line]) == LineTokens(line) + LinesTokens([]);
  }

  lemma {:induction false} SplitExtra(x: Text)
    ensures Split(x + [CR], LF) == WithExtra(Split(x, LF))
  {
    if x == [] {
      assert [] + [CR] == [CR] && [CR][1..] == [];
      assert Split([CR], LF) == SplitHead(CR, LF, [[]]);
      assert [CR] + [] == [CR] && [[CR]] + [[]][1..] == [[CR]];
      assert WithExtra([[]]) == [[CR]];
    } else {
      SplitExtra(x[1..]);
      assert (x + [CR])[1..] == x[1..] + [CR];
      ExtraAfterHead(x[0], Split(x[1..], LF));
    }
  }

  function WithExtra(lines: seq<Text>): (r: seq<Text>)
    requires |lines| >= 1
    ensures |r| >= 1
  {
    if |lines| == 1 then [lines[0] + [CR]] else [lines[0]] + WithExtra(lines[1..])
  }

  lemma ExtraAfterHead(c: unit, rest: seq<Text>)
    requires |rest| >= 1
    ensures SplitHead(c, LF, WithExtra(rest)) == WithExtra(SplitHead(c, LF, rest))
  {
    if c == LF {
      assert ([[]] + rest)[1..] == rest;
    } else if |rest| == 1 {
      assert [c] + (rest[0] + [CR]) == [c] + rest[0] + [CR];
    } else {
      assert WithExtra(rest)[1..] == WithExtra(rest[1..]);
      assert ([[c] + rest[0]] + rest[1..])[1..] == rest[1..];
    }
  }

  lemma TokensAtCrLf(x: Text, y: Text)
    ensures TokensOf(x + CRLF + y) == TokensOf(x + [LF] + y)
  {
    hide *;
    TokensAt(x + [CR], y);
    TokensAt(x, y);
    LastLineExtra(x);
    BlankLine();
    assert x + CRLF + y == x + [CR] + [LF] + y;
  }

  /** Normalising line ends changes no token, whatever follows, and so may be done at any time, any number of times. */
  lemma {:induction false} TokensNormalised(x: Text, rest: Text)
    ensures TokensOf(ReplaceAll(x, CRLF, [LF]) + rest) == TokensOf(x + rest)
    decreases |x|
  {
    hide TokensOf;
    var at := IndexOf(x, CRLF);
    if at != -1 {
      var head, tail := x[..at], x[at + 2..];
      TokensNormalised(tail, rest);
      SameAfterLineEnd(head, ReplaceAll(tail, CRLF, [LF]) + rest, tail + rest);
      assert x == head + CRLF + tail;
      assert x + rest == head + CRLF + (tail + rest);
      assert head + [LF] + ReplaceAll(tail, CRLF, [LF]) + rest == head + [LF] + (ReplaceAll(tail, CRLF, [LF]) + rest);
    }
  }

  lemma SameAfterLineEnd(head: Text, y: Text, z: Text)
    requires TokensOf(y) == TokensOf(z)
    ensures TokensOf(head + [LF] + y) == TokensOf(head + CRLF + z)
  {
    hide *;
    TokensAtCrLf(head, z);
    TokensAt(head, y);
    TokensAt(head, z);
  }

  // The reader

  ghost predicate EndsBlank(s: Text) {
    |s| >= 2 && s[|s| - 2..] == BLANK
  }

  /** What is left of a buffer that a blank line ends. */
  ghost predicate Drainable(s: Text) {
    s == [] || s == [LF] || EndsBlank(s)
  }

  method Lines(frame: Text, narrator: StreamNarrator) returns (tokens: seq<Text>)
    requires narrator.Ready()
    modifies narrator
    ensures tokens == TokensOf(frame)
    ensures narrator.Ready() && narrator.seen == old(narrator.seen) + Concat(tokens)
  {
    hide *;
    var lines := Split(frame, LF);
    tokens := [];
    NoLines(narrator.seen);
    for i := 0 to |lines|
      invariant tokens == LinesTokens(lines[..i])
      invariant narrator.Ready() && narrator.seen == old(narrator.seen) + Concat(tokens)
    {
      var found := LineTokens(lines[i]);
      NextLine(lines, i);
      if found != [] {
        narrator.Token(found[0]);
        NextToken(old(narrator.seen), tokens, found[0]);
        tokens := tokens + [found[0]];
      }
    }
    assert lines[..|lines|] == lines;
    TokensOfLines(frame);
  }

  lemma NoLines(seen: Text)
    ensures LinesTokens([]) == [] && seen + Concat([]) == seen
  {}

  lemma NextLine(lines: seq<Text>, i: nat)
    requires i < |lines|
    ensures LinesTokens(lines[..i + 1]) == LinesTokens(lines[..i]) + LineTokens(lines[i])
    ensures LineTokens(lines[i]) == [] || LineTokens(lines[i]) == [LineTokens(lines[i])[0]]
  {
    hide LineTokens;
    OneLine(lines[i]);
    LinesTokensAppend(lines[..i], [lines[i]]);
    assert lines[..i + 1] == lines[..i] + [lines[i]];
    AtMostOne(lines[i]);
  }

  lemma NextToken(start: Text, tokens: seq<Text>, token: Text)
    ensures start + Concat(tokens + [token]) == start + Concat(tokens) + token
  {
    assert (tokens + [token])[..|tokens|] == tokens;
  }

  lemma TokensOfLines(body: Text)
    ensures TokensOf(body) == LinesTokens(Split(body, LF))
  {
    hide Split, LinesTokens;
  }

  lemma AtMostOne(line: Text)
    ensures |LineTokens(line)| <= 1
  {
    hide Json.Parse, ResponseText, Trim, Lit;
  }

  /** The tokens so far and the buffer stand for the text read so far, whatever is read next. */
  ghost predicate StandsFor(tokens: seq<Text>, buffer: Text, body: Text) {
    forall rest :: tokens + TokensOf(buffer + rest) == TokensOf(body + rest)
  }

  lemma StandsForFrame(tokens: seq<Text>, before: Text, frame: Text, left: Text, body: Text)
    requires StandsFor(tokens, before, body) && before == frame + BLANK + left
    ensures StandsFor(tokens + TokensOf(frame), left, body)
  {
    hide TokensOf;
    forall rest ensures tokens + TokensOf(frame) + TokensOf(left + rest) == TokensOf(body + rest) {
      assert before + rest == frame + BLANK + (left + rest);
      TokensAtBlank(frame, left + rest);
      assert tokens + TokensOf(before + rest) == TokensOf(body + rest);
    }
  }

  lemma StandsForRead(tokens: seq<Text>, buffer: Text, body: Text, chunk: Text)
    requires StandsFor(tokens, buffer, body)
    ensures StandsFor(tokens, ReplaceAll(buffer + chunk, CRLF, [LF]), body + chunk)
  {
    hide TokensOf, ReplaceAll;
    forall rest ensures tokens + TokensOf(ReplaceAll(buffer + chunk, CRLF, [LF]) + rest) == TokensOf(body + chunk + rest) {
      TokensNormalised(buffer + chunk, rest);
      assert buffer + chunk + rest == buffer + (chunk + rest) && body + chunk + rest == body + (chunk + rest);
    }
  }

  lemma StandsForDrained(tokens: seq<Text>, before: Text, body: Text, found: seq<Text>, left: Text)
    requires StandsFor(tokens, before, body) && StandsFor(found, left, before)
    ensures StandsFor(tokens + found, left, body)
  {
    hide TokensOf;
    forall rest ensures tokens + found + TokensOf(left + rest) == TokensOf(body + rest) {
      assert tokens + found + TokensOf(left + rest) == tokens + (found + TokensOf(left + rest));
    }
  }

  lemma StandsForAtEnd(tokens: seq<Text>, buffer: Text, body: Text)
    requires StandsFor(tokens, buffer, body)
    ensures tokens + TokensOf(buffer) == TokensOf(body)
  {
    hide TokensOf;
    assert buffer + [] == buffer && body + [] == body;
  }

  lemma LastFrame(buffer: Text, found: seq<Text>, left: Text)
    requires StandsFor(found, left, buffer + BLANK) && (Drainable(buffer + BLANK) ==> left == [] || left == [LF])
    ensures found == TokensOf(buffer)
  {
    assert (buffer + BLANK)[|buffer + BLANK| - 2..] == BLANK;
    StandsForAtEnd(found, left, buffer + BLANK);
    TokensAtBlank(buffer, []);
    NoLine();
    hide TokensOf;
    assert buffer + BLANK + [] == buffer + BLANK;
    assert found + [] == found && TokensOf(buffer) + [] == TokensOf(buffer);
  }

  lemma EndsAt(s: Text)
    requires EndsBlank(s)
    ensures At(s, BLANK, |s| - 2)
  {}

  /** `drain`: every complete frame in the buffer. */
  method Drain(buffer: Text, narrator: StreamNarrator) returns (left: Text, tokens: seq<Text>)
    requires narrator.Ready()
    modifies narrator
    ensures StandsFor(tokens, left, buffer)
    ensures Drainable(buffer) ==> left == [] || left == [LF]
    ensures narrator.Ready() && narrator.seen == old(narrator.seen) + Concat(tokens)
  {
    left, tokens := buffer, [];
    assert StandsFor(tokens, left, buffer);
    hide *;
    var at := IndexOf(left, BLANK);
    while at != -1
      invariant at == IndexOf(left, BLANK)
      invariant StandsFor(tokens, left, buffer)
      invariant Drainable(buffer) ==> Drainable(left)
      invariant narrator.Ready() && narrator.seen == old(narrator.seen) + Concat(tokens)
      decreases |left|
    {
      ghost var seen := narrator.seen;
      var rest, found := DrainFrame(left, at, narrator);
      SeenMore(old(narrator.seen), tokens, found, seen);
      StandsForDrained(tokens, left, buffer, found, rest);
      left, tokens := rest, tokens + found;
      at := IndexOf(left, BLANK);
    }
    if Drainable(left) {
      DrainedOut(left);
    }
  }

  method DrainFrame(buffer: Text, at: nat, narrator: StreamNarrator) returns (left: Text, found: seq<Text>)
    requires narrator.Ready() && At(buffer, BLANK, at)
    modifies narrator
    ensures StandsFor(found, left, buffer) && |left| < |buffer|
    ensures Drainable(buffer) ==> Drainable(left)
    ensures narrator.Ready() && narrator.seen == old(narrator.seen) + Concat(found)
  {
    found := Lines(buffer[..at], narrator);
    left := buffer[at + 2..];
    CutFrame(buffer, at);
    hide TokensOf, Visible, Drainable;
    assert StandsFor([], buffer, buffer);
    StandsForFrame([], buffer, buffer[..at], left, buffer);
    assert [] + found == found;
  }

  lemma SeenMore(start: Text, tokens: seq<Text>, found: seq<Text>, seen: Text)
    requires seen == start + Concat(tokens)
    ensures seen + Concat(found) == start + Concat(tokens + found)
  {
    hide Concat;
    ConcatAppend(tokens, found);
  }

  lemma CutFrame(s: Text, at: nat)
    requires At(s, BLANK, at)
    ensures s == s[..at] + BLANK + s[at + 2..]
    ensures Drainable(s) ==> Drainable(s[at + 2..])
  {
    assert s[at..at + 2] == BLANK;
    if EndsBlank(s) && |s| >= at + 4 {
      assert s[at + 2..][|s| - at - 4..] == s[|s| - 2..];
    }
    if EndsBlank(s) && |s| == at + 3 {
      assert s[at + 2] == s[|s| - 2..][1];
    }
  }

  lemma DrainedOut(s: Text)
    requires Drainable(s) && forall i | 0 <= i :: !At(s, BLANK, i)
    ensures s == [] || s == [LF]
  {
    if EndsBlank(s) {
      EndsAt(s);
    }
  }

  lemma {:induction false} ConcatAppend(a: seq<Text>, b: seq<Text>)
    ensures Concat(a + b) == Concat(a) + Concat(b)
  {
    if b == [] {
      assert a + b == a;
    } else {
      assert (a + b)[|a + b| - 1] == b[|b| - 1];
      assert (a + b)[..|a + b| - 1] == a + b[..|b| - 1];
      ConcatAppend(a, b[..|b| - 1]);
    }
  }

  lemma ConcatNext(chunks: seq<Text>, i: nat)
    requires i < |chunks|
    ensures Concat(chunks[..i + 1]) == Concat(chunks[..i]) + chunks[i]
  {
    assert chunks[..i + 1][..i] == chunks[..i];
  }

  /** Lines 291-292: normalise the whole buffer, then drain it. */
  method ReadChunk(ghost tokens: seq<Text>, buffer: Text, ghost body: Text, chunk: Text, narrator: StreamNarrator)
    returns (left: Text, found: seq<Text>)
    requires narrator.Ready() && StandsFor(tokens, buffer, body)
    modifies narrator
    ensures StandsFor(tokens + found, left, body + chunk)
    ensures narrator.Ready() && narrator.seen == old(narrator.seen) + Concat(found)
  {
    hide *;
    BlankLine();
    var normal := ReplaceAll(buffer + chunk, CRLF, [LF]);
    StandsForRead(tokens, buffer, body, chunk);
    left, found := Drain(normal, narrator);
    StandsForDrained(tokens, normal, body + chunk, found, left);
  }

  lemma AtStart(chunks: seq<Text>, narrator: StreamNarrator)
    requires narrator.Valid() && narrator.seen == [] && narrator.sent == 0
    ensures narrator.Ready() && StandsFor([], [], Concat(chunks[..0])) && Concat([]) == []
  {}

  lemma ReadyShows(narrator: StreamNarrator)
    requires narrator.Ready()
    ensures Concat(narrator.deltas) == narrator.seen[..Visible(narrator.seen)]
  {}

  /** `readTokenStream`, feeding a narrator: for every way of cutting a body into reads, the tokens are
      those of its lines, so the text returned and the text shown depend on the body alone. An aborted
      read has emitted a prefix of them. */
  method ReadTokenStream(chunks: seq<Text>, aborted: bool, narrator: StreamNarrator) returns (text: Text, tokens: seq<Text>)
    requires narrator.Valid() && narrator.seen == [] && narrator.sent == 0
    modifies narrator
    ensures !aborted ==> tokens == TokensOf(Concat(chunks))
    ensures tokens <= TokensOf(Concat(chunks))
    ensures forall said, done | WrittenAs(Concat(chunks), said, done) :: tokens <= said && (!aborted ==> tokens == said)
    ensures text == Concat(tokens) == narrator.seen
    ensures narrator.Ready() && Concat(narrator.deltas) == text[..Visible(text)]
  {
    hide *;
    var buffer: Text := [];
    tokens := [];
    AtStart(chunks, narrator);
    for i := 0 to |chunks|
      invariant StandsFor(tokens, buffer, Concat(chunks[..i]))
      invariant narrator.Ready() && narrator.seen == [] + Concat(tokens)
    {
      ghost var seen := narrator.seen;
      var left, found := ReadChunk(tokens, buffer, Concat(chunks[..i]), chunks[i], narrator);
      SeenMore([], tokens, found, seen);
      ConcatNext(chunks, i);
      buffer, tokens := left, tokens + found;
    }
    assert chunks[..|chunks|] == chunks;
    StandsForAtEnd(tokens, buffer, Concat(chunks));
    if !aborted {
      ghost var seen := narrator.seen;
      var left, found := Drain(buffer + BLANK, narrator);
      LastFrame(buffer, found, left);
      SeenMore([], tokens, found, seen);
      tokens := tokens + found;
    }
    text := Concat(tokens);
    assert [] + text == text;
    ReadyShows(narrator);
    forall said, done | WrittenAs(Concat(chunks), said, done) ensures said == TokensOf(Concat(chunks)) {
      WrittenTokens(Concat(chunks), said, done);
    }
  }
}
