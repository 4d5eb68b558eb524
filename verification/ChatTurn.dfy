/** One conversational turn (`generateChat` of shared/ai-chat.ts) and runs of many turns. The model, the tool
    runner, the browser, the clock and cancellation are arbitrary. */
module ChatTurn {
  import Base64
  import opened Hmac
  import JsNumber
  import opened JsText
  import Json
  import opened Prompt
  import opened ToolRequest
  import opened Approval
  import opened Narrator
  import Transcript
  import FitToBudget
  import Utf8

  const MAX_TOOL_CALLS: nat := 3
  const TOOL_LIMIT_REPLY: Text := Lit("I reached the limit on tool calls for one turn before I could finish an answer. The tool calls recorded with this turn show what I looked at.")
  const DECLINED: Text := Lit("the operator declined to run that statement")
  const NO_TOOLS: Text := Lit("no tools are available in this deployment")
  const TOOL_FAILED: Text := Lit("the tool failed")

  /** What an inference came to: it rejected after some tokens, it had no text, or it said the text of its tokens (a
      binding that does not stream says it as one). */
  datatype Inference = Rejected(tokens: seq<Text>) | NoText | Said(tokens: seq<Text>)

  function Heard(said: Inference): Text {
    if said.NoText? then [] else Concat(said.tokens)
  }

  datatype ToolResult = Failed | Returned(value: Option<Json.Json>)

  datatype Forwarded = Forwarded(name: Tool, sql: Option<Text>)

  datatype Report = Report(name: Option<Tool>, needs: Option<Level>, refused: Option<Text>, sql: Option<Text>)

  datatype Reason = AiDisabled | AiError | EmptyResponse | NoAiBinding

  datatype Pending = Pending(name: Tool, sql: Text, ticket: Text)

  datatype ChatResult =
    | Degraded(reason: Reason)
    | Ok(partial: bool, pending: Option<Pending>, reply: Text, toolCalls: seq<Report>, truncated: bool)

  /** Everything a turn meets. `aborted(round, p)` is the signal at the round's check `p` of three. */
  datatype Env = Env(
    bound: bool,
    level: Level,
    prompt: Option<Text>,
    transcript: Option<seq<Transcript.Entry>>,
    schema: seq<SchemaFact>,
    knowledge: Option<seq<Option<Text>>>,
    answer: Answer,
    checker: Checker,
    mintedAt: time,
    sign: Signer,
    model: nat -> Inference,
    runner: Option<(nat, Forwarded) -> ToolResult>,
    aborted: (nat, nat) -> bool,
    gate: Gate)

  /** A round's narrator at the end of its round: what it heard, whether it was flushed, and what it showed. */
  datatype Narrated = Narrated(heard: Text, flushed: bool, shown: Text)

  /** The turn so far: the next prompt, the reports kept and the ones emitted, what was sent to the runner and to the
      model, and the narration of each round. */
  datatype State = State(
    user: Text, toolCalls: seq<Report>, events: seq<Report>, calls: seq<Forwarded>, prompts: seq<Text>, narrated: seq<Narrated>)

  /** `last` is the last reply the turn judged. */
  datatype Outcome = Outcome(
    result: ChatResult, events: seq<Report>, calls: seq<Forwarded>, prompts: seq<Text>, last: Text, narrated: seq<Narrated>)

  datatype Next = Done(outcome: Outcome) | Continue(state: State)

  function Ended(st: State, result: ChatResult, last: Text): Outcome {
    Outcome(result, st.events, st.calls, st.prompts, last, st.narrated)
  }

  /** A round whose narrator has heard `heard`. */
  function Listening(st: State, heard: Text): State {
    st.(narrated := st.narrated + [Narrated(heard, false, heard[..Visible(heard)])])
  }

  /** And is flushed. */
  function Flushed(st: State): State {
    if st.narrated == [] then st
    else
      var last := |st.narrated| - 1;
      st.(narrated := st.narrated[..last] + [Narrated(st.narrated[last].heard, true, st.narrated[last].heard)])
  }

  function Reported(st: State, report: Report): State {
    st.(toolCalls := st.toolCalls + [report], events := st.events + [report])
  }

  function Told(st: State, text: Text): State {
    st.(user := Observed(st.user, text))
  }

  function RefusedText(why: Text): Text {
    Lit("refused \U{2014} ") + why
  }

  /** `mintTicket`. */
  function Ticket(env: Env, sql: Text): Text {
    VERSION + [DOT] + Expiry(env.mintedAt) + [DOT]
    + SignCanonical(env.sign, env.checker.key, Payload(Expiry(env.mintedAt), env.checker.shardKey, sql))
  }

  function ResultText(result: ToolResult): Text {
    match result
    case Failed => TOOL_FAILED
    case Returned(value) => FitToBudget.Fitted(value)
  }

  predicate Matches(approved: Option<Approved>, sql: Text) {
    approved.Some? && approved.value.sql == sql
  }

  /** Lines 975-1061: what one validated request leads to. */
  function Act(env: Env, approved: Option<Approved>, truncated: bool, round: nat, st: State, reply: Text, verdict: Verdict): Next {
    match verdict
    case Refusal(name, needs, refused) =>
      Continue(Told(Reported(st, Report(name, needs, Some(refused), None)), RefusedText(refused)))
    case Call(tool, sql) =>
      var gated := sql.Some? && NeedsApproval(tool);
      if gated && Matches(approved, sql.value) && !approved.value.allow then
        Continue(Told(Reported(st, Report(Some(tool), None, Some(DECLINED), sql)), RefusedText(DECLINED)))
      else if gated && !Matches(approved, sql.value) then
        Done(Ended(st, Ok(false, Some(Pending(tool, sql.value, Ticket(env, sql.value))), WithoutBlock(reply), st.toolCalls, truncated), reply))
      else if env.runner.None? then
        Continue(Told(Reported(st, Report(Some(tool), None, Some(NO_TOOLS), None)), RefusedText(NO_TOOLS)))
      else if env.aborted(round, 1) then Done(Ended(st, Degraded(AiError), reply))
      else
        var forwarded := Forwarded(tool, sql);
        var ran := Reported(st, Report(Some(tool), None, None, sql)).(calls := st.calls + [forwarded]);
        if env.aborted(round, 2) then Done(Ended(ran, Degraded(AiError), reply))
        else Continue(Told(ran, ResultText(env.runner.value(round, forwarded))))
  }

  /** Lines 955-973: the reply that ends a turn. */
  function Answer(request: Option<Text>, reply: Text): Text {
    var answer := if request.None? then reply else WithoutBlock(reply);
    if answer == [] then TOOL_LIMIT_REPLY else answer
  }

  /** Lines 937-1061, from the raw text of a round. */
  function Judge(env: Env, approved: Option<Approved>, truncated: bool, round: nat, st: State, raw: Text): Next {
    var reply := Trim(raw);
    if reply == [] then Done(Ended(st, Degraded(EmptyResponse), reply))
    else
      var request := Request(reply);
      if request.None? || round == MAX_TOOL_CALLS then
        Done(Ended(if request.None? then Flushed(st) else st, Ok(request.Some?, None, Answer(request, reply), st.toolCalls, truncated), reply))
      else Act(env, approved, truncated, round, st, reply, Validate(request.value, env.level, env.gate))
  }

  /** One round. The first round of a resumed turn is the approved statement's request, without an inference. */
  function Step(env: Env, approved: Option<Approved>, truncated: bool, round: nat, st: State): Next {
    if env.aborted(round, 0) then Done(Ended(st, Degraded(AiError), []))
    else if round == 0 && approved.Some? then Judge(env, approved, truncated, round, Opened(env, approved, round, st), Resumed(approved.value.sql))
    else if !env.model(round).Said? then Done(Ended(Opened(env, approved, round, st), Degraded(AiError), []))
    else Judge(env, approved, truncated, round, Opened(env, approved, round, st), Heard(env.model(round)))
  }

  /** A round up to its raw text: its prompt is sent and its tokens narrated, unless the round is resumed. */
  function Opened(env: Env, approved: Option<Approved>, round: nat, st: State): State {
    if round == 0 && approved.Some? then Listening(st, [])
    else Listening(st.(prompts := st.prompts + [st.user]), Heard(env.model(round)))
  }

  lemma LastRoundEnds(env: Env, approved: Option<Approved>, truncated: bool, st: State)
    ensures Step(env, approved, truncated, MAX_TOOL_CALLS, st).Done?
  {}

  function Rounds(env: Env, approved: Option<Approved>, truncated: bool, round: nat, st: State): Outcome
    requires round <= MAX_TOOL_CALLS
    decreases MAX_TOOL_CALLS - round
  {
    LastRoundEnds(env, approved, truncated, st);
    match Step(env, approved, truncated, round, st)
    case Done(outcome) => outcome
    case Continue(next) => Rounds(env, approved, truncated, round + 1, next)
  }

  lemma RoundsUnfold(env: Env, approved: Option<Approved>, truncated: bool, round: nat, st: State)
    requires round <= MAX_TOOL_CALLS
    ensures match Step(env, approved, truncated, round, st)
      case Done(outcome) => Rounds(env, approved, truncated, round, st) == outcome
      case Continue(next) =>
        round + 1 <= MAX_TOOL_CALLS && Rounds(env, approved, truncated, round, st) == Rounds(env, approved, truncated, round + 1, next)
    ensures MAX_TOOL_CALLS == 3
  {
    LastRoundEnds(env, approved, truncated, st);
    hide Step;
  }

  function Entries(env: Env): seq<Transcript.Entry> {
    if env.transcript.Some? then env.transcript.value else []
  }

  function Start(env: Env, prompt: Text): State {
    State(UserPrompt(Transcript.Budgeted(env.transcript), prompt, env.schema, env.knowledge), [], [], [], [], [])
  }

  function Truncated(env: Env): bool {
    |Transcript.Budgeted(env.transcript)| < |Entries(env)|
  }

  function ApprovedBy(env: Env): Option<Approved> {
    Verified(env.checker, env.answer)
  }

  /** A turn that ends before its first round. */
  function Unstarted(reason: Reason): Outcome {
    Outcome(Degraded(reason), [], [], [], [], [])
  }

  predicate Starts(env: Env) {
    env.bound && !env.level.Disabled? && Capped(env.prompt, PROMPT_CAP) != []
  }

  /** `generateChat`. */
  function TurnOf(env: Env): Outcome {
    if !env.bound then Unstarted(NoAiBinding)
    else if env.level.Disabled? then Unstarted(AiDisabled)
    else if Capped(env.prompt, PROMPT_CAP) == [] then Unstarted(EmptyResponse)
    else Rounds(env, ApprovedBy(env), Truncated(env), 0, Start(env, Capped(env.prompt, PROMPT_CAP)))
  }

  method Budget(env: Env) returns (truncated: bool, turns: seq<Turn>)
    ensures turns == Transcript.Budgeted(env.transcript) && truncated == Truncated(env)
  {
    truncated, turns := Transcript.BudgetTranscript(env.transcript);
  }

  /** `generateChat`, as the loop it is. */
  method GenerateChat(env: Env) returns (outcome: Outcome)
    ensures outcome == TurnOf(env)
  {
    hide *;
    TurnUnstarted(env);
    if !env.bound {
      return Unstarted(NoAiBinding);
    }
    if env.level.Disabled? {
      return Unstarted(AiDisabled);
    }
    var prompt := Capped(env.prompt, PROMPT_CAP);
    if prompt == [] {
      return Unstarted(EmptyResponse);
    }
    var truncated, turns := Budget(env);
    TurnStarts(env, truncated, turns);
    var approved := Verified(env.checker, env.answer);
    var st := State(UserPrompt(turns, prompt, env.schema, env.knowledge), [], [], [], [], []);
    var round := 0;
    Limits();
    while round <= MAX_TOOL_CALLS
      invariant round <= MAX_TOOL_CALLS && TurnOf(env) == Rounds(env, approved, truncated, round, st)
    {
      RoundStep(env, approved, truncated, round, st);
      OpenedAs(env, approved, round, st);
      if env.aborted(round, 0) {
        return Ended(st, Degraded(AiError), []);
      }
      var raw: Text;
      var narrator: StreamNarrator;
      if round == 0 && approved.Some? {
        raw := Resumed(approved.value.sql);
        narrator := Listen([]);
      } else {
        st := st.(prompts := st.prompts + [st.user]);
        var said := env.model(round);
        narrator := Listen(if said.NoText? then [] else said.tokens);
        if !said.Said? {
          ReadyIsListening(narrator, st);
          return Ended(st.(narrated := st.narrated + [Narrated(narrator.seen, false, Concat(narrator.deltas))]), Degraded(AiError), []);
        }
        raw := narrator.seen;
      }
      var done, next := Conclude(env, approved, truncated, round, st, raw, narrator);
      if done.Some? {
        return done.value;
      }
      st := next;
      round := round + 1;
    }
    assert false;
  }

  lemma Limits()
    ensures MAX_TOOL_CALLS == 3
  {}

  lemma TurnUnstarted(env: Env)
    ensures !env.bound ==> TurnOf(env) == Unstarted(NoAiBinding)
    ensures env.bound && env.level.Disabled? ==> TurnOf(env) == Unstarted(AiDisabled)
    ensures env.bound && !env.level.Disabled? && Capped(env.prompt, PROMPT_CAP) == [] ==> TurnOf(env) == Unstarted(EmptyResponse)
    ensures env.bound && !env.level.Disabled? && Capped(env.prompt, PROMPT_CAP) != [] ==> Starts(env)
  {
    hide Capped, Rounds;
  }

  lemma TurnStarts(env: Env, truncated: bool, turns: seq<Turn>)
    requires Starts(env) && turns == Transcript.Budgeted(env.transcript)
    requires truncated == Truncated(env)
    ensures TurnOf(env) == Rounds(env, Verified(env.checker, env.answer), truncated, 0,
      State(UserPrompt(turns, Capped(env.prompt, PROMPT_CAP), env.schema, env.knowledge), [], [], [], [], []))
  {
    hide Rounds, Verified, UserPrompt, Capped, Transcript.Budgeted;
  }

  lemma ReadyIsListening(narrator: StreamNarrator, st: State)
    requires narrator.Ready()
    ensures st.(narrated := st.narrated + [Narrated(narrator.seen, false, Concat(narrator.deltas))]) == Listening(st, narrator.seen)
  {
    hide Concat, Visible;
  }

  /** What one pass of the loop must show for each way through it. */
  lemma RoundStep(env: Env, approved: Option<Approved>, truncated: bool, round: nat, st: State)
    requires round <= MAX_TOOL_CALLS
    ensures var begun := Opened(env, approved, round, st);
      var whole := Rounds(env, approved, truncated, round, st);
      if env.aborted(round, 0) then whole == Ended(st, Degraded(AiError), [])
      else if !(round == 0 && approved.Some?) && !env.model(round).Said? then
        whole == Ended(begun, Degraded(AiError), [])
      else
        var raw := if round == 0 && approved.Some? then Resumed(approved.value.sql) else Heard(env.model(round));
        match Judge(env, approved, truncated, round, begun, raw)
        case Done(outcome) => whole == outcome
        case Continue(next) => round < MAX_TOOL_CALLS && whole == Rounds(env, approved, truncated, round + 1, next)
  {
    LastRoundEnds(env, approved, truncated, st);
    hide Judge, Resumed, Opened, Ended;
  }

  lemma OpenedAs(env: Env, approved: Option<Approved>, round: nat, st: State)
    ensures round == 0 && approved.Some? ==> Opened(env, approved, round, st) == Listening(st, Concat([]))
    ensures !(round == 0 && approved.Some?) ==>
      Opened(env, approved, round, st) ==
        Listening(st.(prompts := st.prompts + [st.user]), Concat(if env.model(round).NoText? then [] else env.model(round).tokens))
    ensures env.model(round).Said? ==> Heard(env.model(round)) == Concat(env.model(round).tokens)
  {
    hide Listening;
  }

  /** Lines 937-1061, with the round's narrator. */
  method Conclude(env: Env, approved: Option<Approved>, truncated: bool, round: nat, before: State, raw: Text, narrator: StreamNarrator)
    returns (done: Option<Outcome>, next: State)
    requires narrator.Ready()
    modifies narrator
    ensures done.Some? ==> Judge(env, approved, truncated, round, Listening(before, old(narrator.seen)), raw) == Done(done.value)
    ensures done.None? ==> Judge(env, approved, truncated, round, Listening(before, old(narrator.seen)), raw) == Continue(next)
  {
    hide Act, Trim, Request, Validate, WithoutBlock, Lit, Visible, Concat;
    ReadyIsListening(narrator, before);
    var st := before.(narrated := before.narrated + [Narrated(narrator.seen, false, Concat(narrator.deltas))]);
    done, next := None, st;
    var reply := Trim(raw);
    if reply == [] {
      done := Some(Ended(st, Degraded(EmptyResponse), reply));
      return;
    }
    var request := Request(reply);
    if request.None? {
      narrator.Flush();
      st := before.(narrated := before.narrated + [Narrated(narrator.seen, true, Concat(narrator.deltas))]);
    }
    if request.None? || round == MAX_TOOL_CALLS {
      var answer := if request.None? then reply else WithoutBlock(reply);
      var shown := if answer == [] then TOOL_LIMIT_REPLY else answer;
      done := Some(Ended(st, Ok(request.Some?, None, shown, st.toolCalls, truncated), reply));
      return;
    }
    done, next := Perform(env, approved, truncated, round, st, reply, Validate(request.value, env.level, env.gate));
  }

  /** Lines 977-1061. */
  method Perform(env: Env, approved: Option<Approved>, truncated: bool, round: nat, st: State, reply: Text, verdict: Verdict)
    returns (done: Option<Outcome>, next: State)
    ensures done.Some? ==> Act(env, approved, truncated, round, st, reply, verdict) == Done(done.value)
    ensures done.None? ==> Act(env, approved, truncated, round, st, reply, verdict) == Continue(next)
  {
    hide Observed, WithoutBlock, RefusedText, Ticket, Lit;
    done, next := None, st;
    if verdict.Refusal? {
      next := Reported(next, Report(verdict.name, verdict.needs, Some(verdict.refused), None));
      next := Told(next, RefusedText(verdict.refused));
      return;
    }
    if verdict.sql.Some? && NeedsApproval(verdict.tool) {
      var answered := approved.Some? && approved.value.sql == verdict.sql.value;
      if answered && !approved.value.allow {
        next := Reported(next, Report(Some(verdict.tool), None, Some(DECLINED), verdict.sql));
        next := Told(next, RefusedText(DECLINED));
        return;
      }
      if !answered {
        var pending := Pending(verdict.tool, verdict.sql.value, Ticket(env, verdict.sql.value));
        done := Some(Ended(next, Ok(false, Some(pending), WithoutBlock(reply), next.toolCalls, truncated), reply));
        return;
      }
    }
    if env.runner.None? {
      next := Reported(next, Report(Some(verdict.tool), None, Some(NO_TOOLS), None));
      next := Told(next, RefusedText(NO_TOOLS));
      return;
    }
    if env.aborted(round, 1) {
      done := Some(Ended(next, Degraded(AiError), reply));
      return;
    }
    next := Reported(next, Report(Some(verdict.tool), None, None, verdict.sql));
    var forwarded := Forwarded(verdict.tool, verdict.sql);
    var ran := env.runner.value(round, forwarded);
    next := next.(calls := next.calls + [forwarded]);
    var result := TOOL_FAILED;
    if ran.Returned? {
      result := FitToBudget.Fitted(ran.value);
    }
    if env.aborted(round, 2) {
      done := Some(Ended(next, Degraded(AiError), reply));
      return;
    }
    next := Told(next, result);
  }

  // Turn accounting

  /** A call the turn may make: within the level, a statement with `runSql` only, gate-accepted and approved. */
  ghost predicate Permitted(env: Env, call: Forwarded) {
    && Allows(env.level, call.name) && (call.sql.Some? <==> call.name.RunSql?)
    && (call.sql.Some? ==> env.gate(call.sql.value).None? && ApprovedBy(env) == Some(Approved(true, call.sql.value)))
  }

  ghost predicate AllPermitted(env: Env, calls: seq<Forwarded>) {
    forall call | call in calls :: Permitted(env, call)
  }

  /** The head of a round: one report for each round before it, and an inference for each but a resumed first one. */
  ghost predicate AtHead(env: Env, round: nat, st: State) {
    && |st.toolCalls| == round && st.events == st.toolCalls
    && |st.prompts| == (if round > 0 && ApprovedBy(env).Some? then round - 1 else round)
    && |st.calls| <= round && AllPermitted(env, st.calls)
  }

  ghost predicate Accounted(env: Env, o: Outcome) {
    && |o.prompts| <= 4 && (ApprovedBy(env).Some? ==> |o.prompts| <= 3)
    && |o.calls| <= 3 && |o.events| <= 3 && AllPermitted(env, o.calls)
    && (o.result.Ok? ==> o.result.toolCalls == o.events)
    && (o.result.Ok? && o.result.pending.None? ==>
         o.result.reply != [] && (o.result.partial <==> Request(o.last).Some?) && (o.result.partial ==> |o.events| == 3))
    && (o.result.Ok? && o.result.pending.Some? ==>
         !o.result.partial && o.result.pending.value.name.RunSql? && env.gate(o.result.pending.value.sql).None?
         && !Matches(ApprovedBy(env), o.result.pending.value.sql) && IsCard(env, o.result.pending.value))
  }

  /** A card as a turn may show it: its ticket is for its statement, which went through `capped`. */
  ghost predicate IsCard(env: Env, card: Pending) {
    card.sql != [] && |card.sql| <= STATEMENT_CAP && Harmless(card.sql) && IsCapped(card.sql, STATEMENT_CAP)
    && card.ticket == Ticket(env, card.sql)
  }

  lemma ActAccounted(env: Env, truncated: bool, round: nat, st: State, reply: Text, raw: Text)
    requires round < MAX_TOOL_CALLS && |st.toolCalls| == round && st.events == st.toolCalls && |st.calls| <= round
    requires AllPermitted(env, st.calls)
    requires |st.prompts| == (if ApprovedBy(env).Some? then round else round + 1)
    ensures var next := Act(env, ApprovedBy(env), truncated, round, st, reply, Validate(raw, env.level, env.gate));
      if next.Done? then Accounted(env, next.outcome) else AtHead(env, round + 1, next.state)
  {
    ValidatedCall(raw, env.level, env.gate);
    hide Validate, ApprovedBy, Lit, Observed, WithoutBlock, RefusedText, Ticket, ResultText, Request, Harmless, Says, Capped;
  }

  lemma NonEmptyLimit()
    ensures TOOL_LIMIT_REPLY != []
  {}

  lemma JudgeAccounted(env: Env, truncated: bool, round: nat, st: State, raw: Text)
    requires round <= MAX_TOOL_CALLS && |st.toolCalls| == round && st.events == st.toolCalls && |st.calls| <= round
    requires AllPermitted(env, st.calls)
    requires |st.prompts| == (if ApprovedBy(env).Some? then round else round + 1)
    ensures var next := Judge(env, ApprovedBy(env), truncated, round, st, raw);
      if next.Done? then Accounted(env, next.outcome) else AtHead(env, round + 1, next.state)
  {
    NonEmptyLimit();
    hide Validate, ApprovedBy, Lit, WithoutBlock, Request, Act, Trim, Permitted;
    var reply := Trim(raw);
    if reply != [] && Request(reply).Some? && round < MAX_TOOL_CALLS {
      ActAccounted(env, truncated, round, st, reply, Request(reply).value);
    }
  }

  lemma StepAccounted(env: Env, truncated: bool, round: nat, st: State)
    requires round <= MAX_TOOL_CALLS && AtHead(env, round, st)
    ensures var next := Step(env, ApprovedBy(env), truncated, round, st);
      if next.Done? then Accounted(env, next.outcome) else AtHead(env, round + 1, next.state)
  {
    hide ApprovedBy, Judge, Resumed, Permitted;
    if round == 0 && ApprovedBy(env).Some? {
      JudgeAccounted(env, truncated, round, Opened(env, ApprovedBy(env), round, st), Resumed(ApprovedBy(env).value.sql));
    } else if env.model(round).Said? {
      JudgeAccounted(env, truncated, round, Opened(env, ApprovedBy(env), round, st), Heard(env.model(round)));
    }
  }

  lemma {:induction false} RoundsAccounted(env: Env, truncated: bool, round: nat, st: State)
    requires round <= MAX_TOOL_CALLS && AtHead(env, round, st)
    ensures Accounted(env, Rounds(env, ApprovedBy(env), truncated, round, st))
    decreases MAX_TOOL_CALLS - round
  {
    hide *;
    RoundsUnfold(env, ApprovedBy(env), truncated, round, st);
    StepAccounted(env, truncated, round, st);
    match Step(env, ApprovedBy(env), truncated, round, st)
    case Done(_) =>
    case Continue(next) => RoundsAccounted(env, truncated, round + 1, next);
  }

  /** At most four inferences, three when resumed; at most three calls, each permitted; the reports returned are
      the ones emitted; a final answer is never empty and is partial exactly when its round still asked for a tool. */
  lemma TurnAccounted(env: Env)
    ensures Accounted(env, TurnOf(env))
  {
    hide Rounds, Capped, ApprovedBy;
    if Starts(env) {
      RoundsAccounted(env, Truncated(env), 0, Start(env, Capped(env.prompt, PROMPT_CAP)));
    }
  }

  // The fence over the whole loop

  /** What a round's verdict has the model told, when the turn goes on. */
  function TellOf(env: Env, approved: Option<Approved>, round: nat, verdict: Verdict): Text {
    match verdict
    case Refusal(_, _, refused) => RefusedText(refused)
    case Call(tool, sql) =>
      if sql.Some? && NeedsApproval(tool) && Matches(approved, sql.value) && !approved.value.allow then RefusedText(DECLINED)
      else if env.runner.None? then RefusedText(NO_TOOLS)
      else ResultText(env.runner.value(round, Forwarded(tool, sql)))
  }

  /** What round `round` tells the model: a refusal or a result. It depends on the round's own reply alone. */
  function Tell(env: Env, round: nat): Text {
    var approved := ApprovedBy(env);
    var raw := if round == 0 && approved.Some? then Resumed(approved.value.sql) else Heard(env.model(round));
    var request := Request(Trim(raw));
    if request.None? then [] else TellOf(env, approved, round, Validate(request.value, env.level, env.gate))
  }

  function Tells(env: Env, rounds: nat): (told: seq<Text>)
    ensures |told| == rounds
  {
    seq(rounds, r requires 0 <= r < rounds => Tell(env, r))
  }

  /** How many rounds before the prompt at `k` had no prompt of their own. */
  function Ahead(env: Env): nat {
    if ApprovedBy(env).Some? then 1 else 0
  }

  /** The prompts so far and the next one: the opening prompt and what each round before told. */
  ghost predicate Telling(env: Env, user: Text, round: nat, st: State) {
    && st.user == Conversation(user, Tells(env, round))
    && |st.prompts| + (if round > 0 then Ahead(env) else 0) == round
    && AllTold(env, user, st.prompts)
  }

  ghost predicate AllTold(env: Env, user: Text, prompts: seq<Text>) {
    forall k: nat | k < |prompts| :: prompts[k] == Conversation(user, Tells(env, k + Ahead(env)))
  }

  lemma ActTells(env: Env, approved: Option<Approved>, truncated: bool, round: nat, st: State, reply: Text, verdict: Verdict)
    ensures var next := Act(env, approved, truncated, round, st, reply, verdict);
      if next.Done? then next.outcome.prompts == st.prompts
      else next.state.prompts == st.prompts && next.state.user == Observed(st.user, TellOf(env, approved, round, verdict))
  {
    hide Observed, Lit, ResultText, WithoutBlock, Ticket, RefusedText;
  }

  lemma JudgeTells(env: Env, approved: Option<Approved>, truncated: bool, round: nat, st: State, raw: Text)
    ensures var next := Judge(env, approved, truncated, round, st, raw);
      if next.Done? then next.outcome.prompts == st.prompts
      else
        Request(Trim(raw)).Some? && next.state.prompts == st.prompts
        && next.state.user == Observed(st.user, TellOf(env, approved, round, Validate(Request(Trim(raw)).value, env.level, env.gate)))
  {
    hide Act, Validate, Request, Trim, Answer, TellOf, Observed, Lit;
    if Trim(raw) != [] && Request(Trim(raw)).Some? {
      ActTells(env, approved, truncated, round, st, Trim(raw), Validate(Request(Trim(raw)).value, env.level, env.gate));
    }
  }

  lemma StepTells(env: Env, truncated: bool, round: nat, st: State)
    ensures var next := Step(env, ApprovedBy(env), truncated, round, st);
      var prompts := if round == 0 && ApprovedBy(env).Some? then st.prompts else st.prompts + [st.user];
      if next.Done? then next.outcome.prompts == prompts || next.outcome.prompts == st.prompts
      else next.state.prompts == prompts && next.state.user == Observed(st.user, Tell(env, round))
  {
    hide Judge, ApprovedBy, Resumed, Heard, Opened, Observed, TellOf, Validate, Request, Trim;
    var approved := ApprovedBy(env);
    OpenedKeeps(env, approved, round, st);
    var begun := Opened(env, approved, round, st);
    if round == 0 && approved.Some? {
      JudgeTells(env, approved, truncated, round, begun, Resumed(approved.value.sql));
    } else {
      JudgeTells(env, approved, truncated, round, begun, Heard(env.model(round)));
    }
  }

  lemma OneMoreTell(env: Env, user: Text, round: nat)
    ensures Conversation(user, Tells(env, round + 1)) == Observed(Conversation(user, Tells(env, round)), Tell(env, round))
  {
    hide Tell, Observed;
    assert Tells(env, round + 1)[..round] == Tells(env, round);
  }

  lemma OneMorePrompt(env: Env, user: Text, round: nat, st: State)
    requires Telling(env, user, round, st)
    ensures AllTold(env, user, if round == 0 && ApprovedBy(env).Some? then st.prompts else st.prompts + [st.user])
  {
    hide ApprovedBy, Conversation, Tells;
  }

  lemma {:induction false} RoundsTell(env: Env, user: Text, truncated: bool, round: nat, st: State)
    requires round <= MAX_TOOL_CALLS && Telling(env, user, round, st)
    ensures AllTold(env, user, Rounds(env, ApprovedBy(env), truncated, round, st).prompts)
    decreases MAX_TOOL_CALLS - round
  {
    hide *;
    RoundsUnfold(env, ApprovedBy(env), truncated, round, st);
    StepTells(env, truncated, round, st);
    OneMorePrompt(env, user, round, st);
    TellingSoFar(env, user, round, st);
    match Step(env, ApprovedBy(env), truncated, round, st)
    case Done(_) =>
    case Continue(next) =>
      OneMoreTell(env, user, round);
      TellingNext(env, user, round, st, next);
      RoundsTell(env, user, truncated, round + 1, next);
  }

  lemma TellingSoFar(env: Env, user: Text, round: nat, st: State)
    requires Telling(env, user, round, st)
    ensures AllTold(env, user, st.prompts) && st.user == Conversation(user, Tells(env, round))
  {
    hide Conversation, Tells, ApprovedBy;
  }

  lemma TellingNext(env: Env, user: Text, round: nat, st: State, next: State)
    requires Telling(env, user, round, st) && next.user == Conversation(user, Tells(env, round + 1))
    requires next.prompts == if round == 0 && ApprovedBy(env).Some? then st.prompts else st.prompts + [st.user]
    requires AllTold(env, user, next.prompts)
    ensures Telling(env, user, round + 1, next)
  {
    hide Conversation, Tells, ApprovedBy, AllTold;
  }

  /** The prompt a turn opens with. */
  function OpeningPrompt(env: Env): Text {
    Start(env, Capped(env.prompt, PROMPT_CAP)).user
  }

  /** Every prompt of a turn is its opening prompt followed by what each earlier round told. */
  lemma PromptsTold(env: Env)
    ensures AllTold(env, OpeningPrompt(env), TurnOf(env).prompts)
  {
    hide Rounds, Capped, ApprovedBy, UserPrompt, Tell, Transcript.Budgeted;
    if Starts(env) {
      var st := Start(env, Capped(env.prompt, PROMPT_CAP));
      assert Tells(env, 0) == [];
      RoundsTell(env, st.user, Truncated(env), 0, st);
    }
  }

  /** One pair of markers for the transcript, and one for the excerpts if there are any. */
  function FirstPairs(env: Env): nat {
    1 + OpeningPairs(env.knowledge)
  }

  lemma OpeningFenced(env: Env)
    ensures Marks(OpeningPrompt(env)) == Pairs(FirstPairs(env))
  {
    var prompt := Capped(env.prompt, PROMPT_CAP);
    var _, turns := BudgetFacts(env);
    CappedHarmless(env.prompt, PROMPT_CAP);
    UserPromptFenced(turns, prompt, env.schema, env.knowledge);
    hide Capped, Marks, Pairs, UserPrompt, KnowledgeBlock, Transcript.Budgeted, Harmless;
  }

  /** In every prompt sent to the model BEGIN and END alternate, BEGIN first and END last: one pair for the transcript,
      one for the excerpts if there are any, and one for each round before. */
  lemma PromptsFenced(env: Env, k: nat)
    requires k < |TurnOf(env).prompts|
    ensures Marks(TurnOf(env).prompts[k]) == Pairs(FirstPairs(env) + k + Ahead(env))
  {
    hide *;
    PromptsTold(env);
    OpeningFenced(env);
    PromptIs(env, k);
    ConversationFenced(OpeningPrompt(env), Tells(env, k + Ahead(env)), FirstPairs(env));
  }

  lemma PromptIs(env: Env, k: nat)
    requires k < |TurnOf(env).prompts|
    ensures TurnOf(env).prompts[k] == Conversation(OpeningPrompt(env), Tells(env, k + Ahead(env)))
  {
    PromptsTold(env);
    hide TurnOf, Conversation, Tells, OpeningPrompt, Ahead;
  }

  /** What a prompt holds of what others wrote: the question, the turns kept, the excerpts kept, and what the rounds
      before told, capped. */
  ghost predicate Untrusted(env: Env, rounds: nat, s: Text) {
    || s == Capped(env.prompt, PROMPT_CAP)
    || (exists i :: 0 <= i < |Transcript.Budgeted(env.transcript)| && Transcript.Budgeted(env.transcript)[i].text == s)
    || s in KeptExcerpts(env.knowledge)
    || exists i :: 0 <= i < rounds && Capped(Some(Tells(env, rounds)[i]), STATEMENT_CAP) == s
  }

  /** In every prompt each of these stands between a BEGIN and the END that closes it. */
  lemma PromptsEnclose(env: Env, k: nat, s: Text)
    requires k < |TurnOf(env).prompts| && Untrusted(env, k + Ahead(env), s)
    ensures Enclosed(TurnOf(env).prompts[k], s)
  {
    PromptIs(env, k);
    OpeningFenced(env);
    OpeningEncloses(env, k + Ahead(env), s);
    hide TurnOf, Conversation, Tells, OpeningPrompt, Ahead, Capped, Marks, Pairs, Enclosed, Transcript.Budgeted, KeptExcerpts, FirstPairs;
    ConversationEncloses(OpeningPrompt(env), Tells(env, k + Ahead(env)), FirstPairs(env), s);
  }

  lemma OpeningEncloses(env: Env, rounds: nat, s: Text)
    requires Untrusted(env, rounds, s)
    ensures Enclosed(OpeningPrompt(env), s) || exists i :: 0 <= i < rounds && Capped(Some(Tells(env, rounds)[i]), STATEMENT_CAP) == s
  {
    var prompt := Capped(env.prompt, PROMPT_CAP);
    var _, turns := BudgetFacts(env);
    CappedHarmless(env.prompt, PROMPT_CAP);
    hide Capped, UserPrompt, Enclosed, Harmless, Transcript.Budgeted, KeptExcerpts, Tells;
    if s == prompt || (exists i :: 0 <= i < |turns| && turns[i].text == s) || s in KeptExcerpts(env.knowledge) {
      UserPromptEncloses(turns, prompt, env.schema, env.knowledge, s);
    }
  }

  lemma BudgetFacts(env: Env) returns (valid: seq<Turn>, turns: seq<Turn>)
    ensures turns == Transcript.Budgeted(env.transcript) && forall i | 0 <= i < |turns| :: Harmless(turns[i].text)
  {
    valid := Transcript.ValidTurns(Entries(env));
    turns := Transcript.Budgeted(env.transcript);
    Transcript.ValidTurnsBounded(Entries(env));
    hide Harmless, Transcript.Count, Transcript.ValidTurns;
    forall i | 0 <= i < |turns| ensures Harmless(turns[i].text) {
      assert turns[i] in valid;
    }
  }

  // What the operator is shown

  /** The narration of round `k`: everything heard once flushed, and what may be shown before; a resumed round hears
      nothing; an inferred one is flushed exactly when its reply is not blank and holds no fence. */
  ghost predicate NarratedRight(env: Env, k: nat, n: Narrated) {
    && n.shown == (if n.flushed then n.heard else n.heard[..Visible(n.heard)])
    && (if k == 0 && ApprovedBy(env).Some? then n.heard == [] && !n.flushed
        else
          && n.heard == Heard(env.model(k))
          && (n.flushed <==> env.model(k).Said? && Trim(n.heard) != [] && !Contains(n.heard, TOOL_FENCE)))
  }

  ghost predicate AllNarrated(env: Env, narrated: seq<Narrated>) {
    forall k: nat | k < |narrated| :: NarratedRight(env, k, narrated[k])
  }

  lemma ActNarrates(env: Env, approved: Option<Approved>, truncated: bool, round: nat, st: State, reply: Text, verdict: Verdict)
    ensures var next := Act(env, approved, truncated, round, st, reply, verdict);
      st.narrated == if next.Done? then next.outcome.narrated else next.state.narrated
  {
    hide Observed, Lit, ResultText, WithoutBlock, Ticket, RefusedText;
  }

  lemma JudgeNarrates(env: Env, approved: Option<Approved>, truncated: bool, round: nat, st: State, raw: Text)
    ensures var next := Judge(env, approved, truncated, round, st, raw);
      (if Trim(raw) != [] && !Contains(raw, TOOL_FENCE) then Flushed(st) else st).narrated
        == if next.Done? then next.outcome.narrated else next.state.narrated
  {
    RequestExactly(raw);
    hide Act, Validate, Request, Trim, Answer, Lit, Contains, Flushed;
    if Trim(raw) != [] && Request(Trim(raw)).Some? {
      ActNarrates(env, approved, truncated, round, st, Trim(raw), Validate(Request(Trim(raw)).value, env.level, env.gate));
    }
  }

  /** What the narrator of a round hears. */
  function HeardIn(env: Env, round: nat): Text {
    if round == 0 && ApprovedBy(env).Some? then [] else Heard(env.model(round))
  }

  lemma OpenedNarrates(env: Env, round: nat, st: State)
    ensures var begun, heard := Opened(env, ApprovedBy(env), round, st), HeardIn(env, round);
      && begun.narrated == st.narrated + [Narrated(heard, false, heard[..Visible(heard)])]
      && Flushed(begun).narrated == st.narrated + [Narrated(heard, true, heard)]
  {
    hide Visible, Heard, ApprovedBy;
    var begun := Opened(env, ApprovedBy(env), round, st);
    assert begun.narrated[..|begun.narrated| - 1] == st.narrated;
  }

  /** A round whose raw text is `raw` adds its own narration, flushed when that is neither blank nor fenced. */
  lemma JudgedNarrates(env: Env, truncated: bool, round: nat, st: State, raw: Text)
    ensures var next := Judge(env, ApprovedBy(env), truncated, round, Opened(env, ApprovedBy(env), round, st), raw);
      var heard, flushed := HeardIn(env, round), Trim(raw) != [] && !Contains(raw, TOOL_FENCE);
      && (if next.Done? then next.outcome.narrated else next.state.narrated)
        == st.narrated + [Narrated(heard, flushed, if flushed then heard else heard[..Visible(heard)])]
      && |if next.Done? then next.outcome.prompts else next.state.prompts|
        == |st.prompts| + if round == 0 && ApprovedBy(env).Some? then 0 else 1
  {
    hide *;
    var begun := Opened(env, ApprovedBy(env), round, st);
    OpenedNarrates(env, round, st);
    OpenedKeeps(env, ApprovedBy(env), round, st);
    JudgeNarrates(env, ApprovedBy(env), truncated, round, begun, raw);
    JudgeTells(env, ApprovedBy(env), truncated, round, begun, raw);
  }

  /** A round adds its own narration, and it is right. */
  lemma StepNarrates(env: Env, truncated: bool, round: nat, st: State)
    requires |st.narrated| == round
    ensures var next := Step(env, ApprovedBy(env), truncated, round, st);
      var narrated := if next.Done? then next.outcome.narrated else next.state.narrated;
      if env.aborted(round, 0) then next.Done? && narrated == st.narrated && next.outcome.prompts == st.prompts
      else
        && |narrated| == round + 1 && narrated[..round] == st.narrated && NarratedRight(env, round, narrated[round])
        && |if next.Done? then next.outcome.prompts else next.state.prompts|
          == |st.prompts| + if round == 0 && ApprovedBy(env).Some? then 0 else 1
  {
    hide Judge, ApprovedBy, Resumed, Trim, Contains, Heard, Visible, Opened, Flushed;
    if !env.aborted(round, 0) {
      if round == 0 && ApprovedBy(env).Some? {
        JudgedNarrates(env, truncated, round, st, Resumed(ApprovedBy(env).value.sql));
        ResumedHasFence(ApprovedBy(env).value.sql);
      } else {
        OpenedNarrates(env, round, st);
        OpenedKeeps(env, ApprovedBy(env), round, st);
        JudgedNarrates(env, truncated, round, st, Heard(env.model(round)));
      }
    }
  }

  lemma ResumedHasFence(sql: Text)
    ensures Contains(Resumed(sql), TOOL_FENCE)
  {
    ResumedRest(sql);
    hide Resumed, Lit;
    assert At(Resumed(sql), TOOL_FENCE, 0);
  }

  /** A resumed round that was begun has a narration and no prompt. */
  function ResumedRounds(env: Env): nat {
    if ApprovedBy(env).Some? && !env.aborted(0, 0) then 1 else 0
  }

  lemma {:induction false} RoundsNarrate(env: Env, truncated: bool, round: nat, st: State)
    requires round <= MAX_TOOL_CALLS && |st.narrated| == round && AllNarrated(env, st.narrated)
    requires |st.narrated| == |st.prompts| + if round == 0 then 0 else ResumedRounds(env)
    ensures var outcome := Rounds(env, ApprovedBy(env), truncated, round, st);
      AllNarrated(env, outcome.narrated) && |outcome.narrated| == |outcome.prompts| + ResumedRounds(env)
    decreases MAX_TOOL_CALLS - round
  {
    hide *;
    RoundsUnfold(env, ApprovedBy(env), truncated, round, st);
    StepNarrates(env, truncated, round, st);
    ResumedOrNot(env);
    match Step(env, ApprovedBy(env), truncated, round, st)
    case Done(outcome) => OneMoreNarrated(env, st.narrated, outcome.narrated);
    case Continue(next) =>
      OneMoreNarrated(env, st.narrated, next.narrated);
      RoundsNarrate(env, truncated, round + 1, next);
  }

  lemma ResumedOrNot(env: Env)
    ensures ResumedRounds(env) == if ApprovedBy(env).Some? && !env.aborted(0, 0) then 1 else 0
  {
    hide ApprovedBy;
  }

  lemma OneMoreNarrated(env: Env, before: seq<Narrated>, after: seq<Narrated>)
    requires AllNarrated(env, before)
    requires after == before
      || (|after| == |before| + 1 && after[..|before|] == before && NarratedRight(env, |before|, after[|before|]))
    ensures AllNarrated(env, after)
  {
    hide NarratedRight;
    forall k: nat | k < |after| ensures NarratedRight(env, k, after[k]) {
      if k < |before| {
        assert after[..|before|][k] == after[k];
      }
    }
  }

  /** Every round begun has its narration: one for each prompt, and one for a resumed round. In each of them the narrator
      is flushed exactly when the round was inferred and its untrimmed reply is not blank and holds no fence, and the
      operator was shown exactly what that allows. */
  lemma FlushExactly(env: Env)
    ensures AllNarrated(env, TurnOf(env).narrated)
    ensures |TurnOf(env).narrated| == |TurnOf(env).prompts| + if Starts(env) then ResumedRounds(env) else 0
  {
    hide Rounds, Capped, ApprovedBy, NarratedRight, ResumedRounds;
    if Starts(env) {
      RoundsNarrate(env, Truncated(env), 0, Start(env, Capped(env.prompt, PROMPT_CAP)));
    }
  }

  /** A blank reply ends its turn unflushed although it holds no fence: of eight spaces the operator is shown two. */
  lemma BlankReplyHeldBack(env: Env)
    requires Starts(env) && ApprovedBy(env).None? && !env.aborted(0, 0)
    requires env.model(0).Said? && Heard(env.model(0)) == [32, 32, 32, 32, 32, 32, 32, 32]
    ensures TurnOf(env).result == Degraded(EmptyResponse)
    ensures TurnOf(env).narrated == [Narrated(Heard(env.model(0)), false, [32, 32])]
    ensures !Contains(Heard(env.model(0)), TOOL_FENCE)
  {
    var st := Start(env, Capped(env.prompt, PROMPT_CAP));
    var raw := Heard(env.model(0));
    EightSpaces(raw);
    hide Rounds, Capped, ApprovedBy, Trim, Visible, Contains, Truncated, UserPrompt, Heard, Step, Opened, Transcript.Budgeted;
    BlankStep(env, Truncated(env), st);
    RoundsUnfold(env, ApprovedBy(env), Truncated(env), 0, st);
  }

  lemma BlankStep(env: Env, truncated: bool, st: State)
    requires ApprovedBy(env).None? && !env.aborted(0, 0) && env.model(0).Said? && Trim(Heard(env.model(0))) == []
    ensures var heard := Heard(env.model(0));
      var next := Step(env, ApprovedBy(env), truncated, 0, st);
      && next.Done? && next.outcome.result == Degraded(EmptyResponse)
      && next.outcome.narrated == st.narrated + [Narrated(heard, false, heard[..Visible(heard)])]
  {
    hide Heard, Visible, Trim, ApprovedBy, Act, Validate, Request, Lit;
  }

  lemma EightSpaces(raw: Text)
    requires raw == [32, 32, 32, 32, 32, 32, 32, 32]
    ensures Trim(raw) == [] && !Contains(raw, TOOL_FENCE) && Visible(raw) == 2 && raw[..2] == [32, 32]
  {
    FenceEnds();
    FenceLength();
    TrimStartDropsAll(raw);
    forall i ensures !At(raw, TOOL_FENCE, i) {
      if At(raw, TOOL_FENCE, i) {
        FenceUnit(raw, i, 0);
      }
    }
    hide Lit;
  }

  lemma {:induction false} TrimStartDropsAll(s: Text)
    requires forall i | 0 <= i < |s| :: s[i] == 32
    ensures TrimStart(s) == []
  {
    if s != [] {
      TrimStartDropsAll(s[1..]);
    }
  }

  // Runs of many turns

  /** The card a turn returned, if it stopped for the operator. */
  function Asked(env: Env): Option<Pending> {
    match TurnOf(env).result
    case Ok(_, pending, _, _, _) => pending
    case Degraded(_) => None
  }

  /** What these turns have signed: one payload for each card. */
  ghost function SignedBy(envs: seq<Env>): Signed {
    if envs == [] then {}
    else
      var last := envs[|envs| - 1];
      SignedBy(envs[..|envs| - 1]) + match Asked(last)
        case None => {}
        case Some(pending) => {TicketEntry(last.checker.key, last.mintedAt, last.checker.shardKey, pending.sql)}
  }

  /** An ideal MAC: in each turn, only what earlier turns signed with that key verifies. */
  ghost predicate IdealMac(envs: seq<Env>) {
    forall i, key | 0 <= i < |envs| :: Ideal(envs[i].checker.verify, key, SignedBy(envs[..i]))
  }

  /** A card `sql` may run on: an earlier turn, the same shard and key, a ticket unexpired at this turn's check, and a
      statement of the same bytes. */
  ghost predicate ApprovedCard(envs: seq<Env>, j: int, i: int, sql: Text)
    requires 0 <= i < |envs|
  {
    && 0 <= j < i && Asked(envs[j]).Some? && Utf8.Encode(Asked(envs[j]).value.sql) == Utf8.Encode(sql)
    && envs[j].checker.shardKey == envs[i].checker.shardKey && KeyOf(envs[j].checker.key) == KeyOf(envs[i].checker.key)
    && envs[i].checker.now < envs[j].mintedAt + APPROVAL_TTL_MS
  }

  lemma {:induction false} SignedSource(envs: seq<Env>, entry: (Hmac.Key, seq<JsNumber.byte>)) returns (j: nat)
    requires entry in SignedBy(envs)
    ensures j < |envs| && Asked(envs[j]).Some?
    ensures entry == TicketEntry(envs[j].checker.key, envs[j].mintedAt, envs[j].checker.shardKey, Asked(envs[j]).value.sql)
  {
    hide Asked, TicketEntry;
    var last := |envs| - 1;
    if entry in SignedBy(envs[..last]) {
      j := SignedSource(envs[..last], entry);
    } else {
      j := last;
    }
  }

  lemma VerifiedHasCard(envs: seq<Env>, i: nat) returns (j: nat)
    requires i < |envs| && IdealMac(envs) && ReadsPrinted(envs[i].checker.number) && ApprovedBy(envs[i]).Some?
    ensures ApprovedCard(envs, j, i, ApprovedBy(envs[i]).value.sql)
    ensures envs[i].answer.Fields? && envs[i].answer.allow == Some(ApprovedBy(envs[i]).value.allow)
  {
    hide Asked, Payload, Capped, SignedBy, ReadsPrinted, KeyOf, Utf8.Encode, Base64.FromBase64Url;
    var c, answer := envs[i].checker, envs[i].answer;
    var parts := Split(Capped(answer.ticket, TICKET_CAP), DOT);
    var statement := Capped(answer.sql, STATEMENT_CAP);
    assert Approves(c, Capped(answer.ticket, TICKET_CAP), statement);
    var entry := (KeyOf(c.key), Utf8.Encode(Payload(parts[1], c.shardKey, statement)));
    var mac := Base64.FromBase64Url(parts[2]).value;
    assert Ideal(c.verify, KeyOf(c.key), SignedBy(envs[..i])) && c.verify(entry.0, entry.1, mac);
    j := SignedSource(envs[..i], entry);
    assert envs[..i][j] == envs[j];
    VerifiedMeansMinted(c, answer, envs[j].mintedAt, envs[j].checker.shardKey, Asked(envs[j]).value.sql);
  }

  /** Whole-run approval safety: whatever the models reply and the browsers send, a statement forwarded to a runner
      has the bytes of one that a card of an earlier turn on that shard showed, on a ticket still valid, answered with
      allow. */
  lemma OnlyApprovedStatementsRun(envs: seq<Env>, i: nat, call: Forwarded)
    requires IdealMac(envs) && i < |envs| && ReadsPrinted(envs[i].checker.number)
    requires call in TurnOf(envs[i]).calls && call.name.RunSql?
    ensures call.sql.Some? && exists j :: ApprovedCard(envs, j, i, call.sql.value)
    ensures envs[i].answer.Fields? && envs[i].answer.allow == Some(true) && envs[i].gate(call.sql.value).None?
  {
    TurnAccounted(envs[i]);
    assert Permitted(envs[i], call);
    hide TurnOf, ApprovedBy, ApprovedCard, IdealMac;
    var j := VerifiedHasCard(envs, i);
    assert ApprovedCard(envs, j, i, call.sql.value);
  }

  /** It is exactly the statement a card showed when it holds neither a lone surrogate nor U+FFFD. */
  lemma ShownStatementsRun(envs: seq<Env>, i: nat, call: Forwarded)
    requires IdealMac(envs) && i < |envs| && ReadsPrinted(envs[i].checker.number)
    requires call in TurnOf(envs[i]).calls && call.name.RunSql?
    requires call.sql.Some? ==> 0xFFFD !in Utf8.Scrubbed(call.sql.value)
    ensures call.sql.Some? && exists j :: ApprovedCard(envs, j, i, call.sql.value) && Asked(envs[j]).value.sql == call.sql.value
  {
    OnlyApprovedStatementsRun(envs, i, call);
    var sql := call.sql.value;
    Utf8.BytesDetermineText(sql);
    hide TurnOf, IdealMac, Asked, Utf8.Encode, Utf8.Scrubbed, KeyOf;
    var j :| ApprovedCard(envs, j, i, sql);
    assert Asked(envs[j]).value.sql == sql;
  }

  // Resuming

  /** The operator allowed `sql`, and its text survives the round trip through the synthesised request. */
  ghost predicate Resumes(env: Env, sql: Text) {
    && Starts(env) && ApprovedBy(env) == Some(Approved(true, sql)) && sql != []
    && env.level.SchemaAndLogAndData? && env.gate(sql).None?
    && Capped(Some(sql), STATEMENT_CAP) == sql && !Contains(sql, CODE_FENCE)
    && env.runner.Some? && !env.aborted(0, 0) && !env.aborted(0, 1) && !env.aborted(0, 2)
  }

  /** A reply that asks for a tool, in a round that may still run one, is judged by its validated request. */
  lemma JudgeActs(env: Env, approved: Option<Approved>, truncated: bool, round: nat, st: State, raw: Text)
    requires Trim(raw) != [] && Request(Trim(raw)).Some? && round < MAX_TOOL_CALLS
    ensures Judge(env, approved, truncated, round, st, raw) ==
      Act(env, approved, truncated, round, st, Trim(raw), Validate(Request(Trim(raw)).value, env.level, env.gate))
  {
    hide Act, Trim, Request, Validate;
  }

  lemma OpenedKeeps(env: Env, approved: Option<Approved>, round: nat, st: State)
    ensures var begun := Opened(env, approved, round, st);
      begun.calls == st.calls && begun.toolCalls == st.toolCalls && begun.user == st.user
      && begun.prompts == if round == 0 && approved.Some? then st.prompts else st.prompts + [st.user]
  {
    hide Visible, Heard;
  }

  lemma ResumedStep(env: Env, approved: Option<Approved>, truncated: bool, st: State)
    requires approved.Some? && !env.aborted(0, 0)
    ensures Step(env, approved, truncated, 0, st) ==
      Judge(env, approved, truncated, 0, Opened(env, approved, 0, st), Resumed(approved.value.sql))
  {
    hide Judge, Opened, Resumed;
  }

  lemma ActRuns(env: Env, truncated: bool, st: State, reply: Text, sql: Text)
    requires ApprovedBy(env) == Some(Approved(true, sql))
    requires env.runner.Some? && !env.aborted(0, 1) && !env.aborted(0, 2)
    ensures var next := Act(env, ApprovedBy(env), truncated, 0, st, reply, Call(RunSql, Some(sql)));
      next.Continue? && next.state.prompts == st.prompts && next.state.calls == st.calls + [Forwarded(RunSql, Some(sql))]
  {
    hide ApprovedBy, Observed, ResultText, WithoutBlock, Ticket, Lit;
  }

  lemma FirstRoundRuns(env: Env, truncated: bool, st: State, sql: Text)
    requires Resumes(env, sql)
    ensures var next := Step(env, ApprovedBy(env), truncated, 0, st);
      next.Continue? && next.state.prompts == st.prompts && next.state.calls == st.calls + [Forwarded(RunSql, Some(sql))]
  {
    var approved := ApprovedBy(env);
    ResumeExact(sql, env.level, env.gate);
    ResumedNotEmpty(sql);
    Limits();
    ResumedStep(env, approved, truncated, st);
    OpenedKeeps(env, approved, 0, st);
    hide Resumed, Trim, Request, Validate, Capped, ApprovedBy, Act, Step, Judge, Opened, Contains, Starts;
    JudgeActs(env, approved, truncated, 0, Opened(env, approved, 0, st), Resumed(sql));
    ActRuns(env, truncated, Opened(env, approved, 0, st), Trim(Resumed(sql)), sql);
  }

  lemma ResumedNotEmpty(sql: Text)
    ensures Trim(Resumed(sql)) != []
  {
    ResumedRest(sql);
    hide Json.Print, Lit;
    assert CODE_FENCE != [] by { FenceFacts(); }
  }

  lemma ActCallsGrow(env: Env, approved: Option<Approved>, truncated: bool, round: nat, st: State, reply: Text, verdict: Verdict)
    ensures var next := Act(env, approved, truncated, round, st, reply, verdict);
      st.calls <= if next.Done? then next.outcome.calls else next.state.calls
  {
    hide Observed, Lit, ResultText, WithoutBlock, Ticket, RefusedText;
  }

  lemma JudgeCallsGrow(env: Env, approved: Option<Approved>, truncated: bool, round: nat, st: State, raw: Text)
    ensures var next := Judge(env, approved, truncated, round, st, raw);
      st.calls <= if next.Done? then next.outcome.calls else next.state.calls
  {
    hide Act, Validate, Request, Trim, Answer;
    if Trim(raw) != [] && Request(Trim(raw)).Some? {
      ActCallsGrow(env, approved, truncated, round, st, Trim(raw), Validate(Request(Trim(raw)).value, env.level, env.gate));
    }
  }

  lemma StepCallsGrow(env: Env, approved: Option<Approved>, truncated: bool, round: nat, st: State)
    ensures var next := Step(env, approved, truncated, round, st);
      st.calls <= if next.Done? then next.outcome.calls else next.state.calls
  {
    hide Judge, Opened, Resumed, Heard;
    OpenedKeeps(env, approved, round, st);
    var begun := Opened(env, approved, round, st);
    if round == 0 && approved.Some? {
      JudgeCallsGrow(env, approved, truncated, round, begun, Resumed(approved.value.sql));
    } else {
      JudgeCallsGrow(env, approved, truncated, round, begun, Heard(env.model(round)));
    }
  }

  lemma {:induction false} CallsGrow(env: Env, approved: Option<Approved>, truncated: bool, round: nat, st: State)
    requires round <= MAX_TOOL_CALLS
    ensures st.calls <= Rounds(env, approved, truncated, round, st).calls
    decreases MAX_TOOL_CALLS - round
  {
    hide *;
    RoundsUnfold(env, approved, truncated, round, st);
    StepCallsGrow(env, approved, truncated, round, st);
    match Step(env, approved, truncated, round, st)
    case Done(_) =>
    case Continue(next) => CallsGrow(env, approved, truncated, round + 1, next);
  }

  /** A resumed turn's first call is exactly the approved statement, made before any inference. */
  lemma ResumedTurnRuns(env: Env, sql: Text)
    requires Resumes(env, sql)
    ensures TurnOf(env).calls != [] && TurnOf(env).calls[0] == Forwarded(RunSql, Some(sql))
    ensures Step(env, ApprovedBy(env), Truncated(env), 0, Start(env, Capped(env.prompt, PROMPT_CAP))).Continue?
    ensures Step(env, ApprovedBy(env), Truncated(env), 0, Start(env, Capped(env.prompt, PROMPT_CAP))).state.prompts == []
  {
    var st := Start(env, Capped(env.prompt, PROMPT_CAP));
    FirstRoundRuns(env, Truncated(env), st, sql);
    RoundsUnfold(env, ApprovedBy(env), Truncated(env), 0, st);
    hide Rounds, Step, Capped, ApprovedBy, Truncated, Contains, UserPrompt;
    var next := Step(env, ApprovedBy(env), Truncated(env), 0, st).state;
    CallsGrow(env, ApprovedBy(env), Truncated(env), 1, next);
  }

  // Answering a card

  /** A ticket as a checker reads it: it approves a statement while it lives and its signature verifies for that
      statement's payload. */
  lemma TicketRead(asker: Env, c: Checker, sql: Text, answered: Text)
    requires ReadsPrinted(c.number)
    ensures Capped(Some(Ticket(asker, sql)), TICKET_CAP) == Ticket(asker, sql) != []
    ensures Approves(c, Ticket(asker, sql), answered) <==>
      c.now < asker.mintedAt + APPROVAL_TTL_MS
      && c.verify(KeyOf(c.key), Utf8.Encode(Payload(Expiry(asker.mintedAt), c.shardKey, answered)), SignatureOf(asker, sql))
  {
    var expiry := Expiry(asker.mintedAt);
    var payload := Payload(expiry, asker.checker.shardKey, sql);
    var signature := SignCanonical(asker.sign, asker.checker.key, payload);
    TimeDigits(asker.mintedAt + APPROVAL_TTL_MS);
    SignedVerifies(asker.sign, c.verify, asker.checker.key, payload, c.key, Payload(expiry, c.shardKey, answered));
    assert c.number(expiry) == Some((asker.mintedAt + APPROVAL_TTL_MS) as real);
    hide Capped, Payload, Split, Digits, Hmac.Printed, ReadsPrinted, Expiry, VerifyText, SignCanonical, KeyOf, Utf8.Encode;
    PlainSignature(signature);
    TicketParts(expiry, signature);
    assert Ticket(asker, sql) == VERSION + [DOT] + expiry + [DOT] + signature;
    CappedPlain(Ticket(asker, sql), TICKET_CAP);
  }

  /** The MAC in the ticket for `sql`. */
  function SignatureOf(asker: Env, sql: Text): Mac {
    asker.sign(KeyOf(asker.checker.key), Utf8.Encode(Payload(Expiry(asker.mintedAt), asker.checker.shardKey, sql)))
  }

  /** A ticket this checker may meet: minted under its key, for its shard, with a signature that holds for what it was
      made for. */
  ghost predicate Honours(c: Checker, asker: Env, sql: Text) {
    && KeyOf(c.key) == KeyOf(asker.checker.key) && c.shardKey == asker.checker.shardKey && ReadsPrinted(c.number)
    && c.verify(KeyOf(c.key), Utf8.Encode(Payload(Expiry(asker.mintedAt), c.shardKey, sql)), SignatureOf(asker, sql))
  }

  /** The ticket a turn minted verifies for the statement it showed exactly until it expires, as long as that
      statement is what `capped` leaves alone. */
  lemma MintedTicketAccepted(asker: Env, c: Checker, sql: Text, allow: bool)
    requires Honours(c, asker, sql)
    requires sql != [] && Capped(Some(sql), STATEMENT_CAP) == sql
    ensures Verified(c, Fields(Some(allow), Some(sql), Some(Ticket(asker, sql)))) == (
      if c.now < asker.mintedAt + APPROVAL_TTL_MS then Some(Approved(allow, sql)) else None)
  {
    hide Capped, Ticket, Approves, SignatureOf, KeyOf, Utf8.Encode, Payload, ReadsPrinted;
    TicketRead(asker, c, sql, sql);
  }

  /** Nothing else with this expiry was signed for this shard and statement, unless it has the card's bytes. */
  ghost predicate OnlyCard(asker: Env, signed: Signed, sql: Text, answered: Text) {
    TicketEntry(asker.checker.key, asker.mintedAt, asker.checker.shardKey, answered) in signed ==>
      Utf8.Encode(answered) == Utf8.Encode(sql)
  }

  /** What becomes of a ticket answered with any statement, under an ideal MAC: it is accepted exactly while it lives and
      when the statement, capped, has the bytes of the one it was minted for. */
  lemma AnswerExact(asker: Env, c: Checker, signed: Signed, sql: Text, answered: Text, allow: bool)
    requires Honours(c, asker, sql) && sql != [] && Ideal(c.verify, KeyOf(c.key), signed)
    requires OnlyCard(asker, signed, sql, Capped(Some(answered), STATEMENT_CAP))
    ensures var statement := Capped(Some(answered), STATEMENT_CAP);
      Verified(c, Fields(Some(allow), Some(answered), Some(Ticket(asker, sql)))) == (
        if c.now < asker.mintedAt + APPROVAL_TTL_MS && Utf8.Encode(statement) == Utf8.Encode(sql) then Some(Approved(allow, statement))
        else None)
  {
    var statement := Capped(Some(answered), STATEMENT_CAP);
    PayloadBytes(Expiry(asker.mintedAt), c.shardKey, statement, Expiry(asker.mintedAt), c.shardKey, sql);
    Utf8.EncodeExact(statement, sql);
    hide Capped, Ticket, Approves, SignatureOf, KeyOf, Utf8.Encode, Utf8.Points, Utf8.Scrubbed, Payload, ReadsPrinted, Expiry;
    TicketRead(asker, c, sql, statement);
    assert Utf8.Encode(statement) == Utf8.Encode(sql) ==> |statement| == |sql|;
  }

  lemma CardFacts(asker: Env)
    requires Asked(asker).Some?
    ensures IsCard(asker, Asked(asker).value)
  {
    TurnAccounted(asker);
    hide TurnOf;
  }

  /** Trimming a text changes its bytes exactly when it changes the text. */
  lemma TrimmedBytes(s: Text)
    ensures Utf8.Encode(Trim(s)) == Utf8.Encode(s) <==> Trimmed(s)
  {
    Utf8.EncodeExact(Trim(s), s);
    var lo, hi := TrimCuts(s);
    TrimIsTrimmed(s);
    hide Trim, Trimmed, Utf8.Encode, Utf8.Points, Utf8.Scrubbed, IsSpace;
    if |Trim(s)| == |s| {
      assert Trim(s) == s;
    }
    assert Utf8.Scrubbed(Trim(s)) == Utf8.Scrubbed(s) ==> |Trim(s)| == |s|;
    if Trimmed(s) {
      TrimTrimmed(s);
    }
  }

  /** The card a turn returned, answered with its own statement and ticket, is accepted exactly while the ticket lives
      and when the statement neither starts nor ends with white space; otherwise the answer counts for nothing. A
      statement that `capped` cut at a space comes back trimmed, as a text no ticket was minted for. */
  lemma CardAnswered(asker: Env, c: Checker, signed: Signed, allow: bool)
    requires Asked(asker).Some? && Honours(c, asker, Asked(asker).value.sql) && Ideal(c.verify, KeyOf(c.key), signed)
    requires OnlyCard(asker, signed, Asked(asker).value.sql, Trim(Asked(asker).value.sql))
    ensures var card := Asked(asker).value;
      Verified(c, Fields(Some(allow), Some(card.sql), Some(card.ticket))) == (
        if c.now < asker.mintedAt + APPROVAL_TTL_MS && Trimmed(card.sql) then Some(Approved(allow, card.sql)) else None)
  {
    CardFacts(asker);
    var card := Asked(asker).value;
    hide Asked, Trim, Trimmed, Capped, Ticket, Verified, Honours, Harmless, OnlyCard, KeyOf, Utf8.Encode, Ideal;
    CappedAgain(card.sql, STATEMENT_CAP);
    TrimmedBytes(card.sql);
    AnswerExact(asker, c, signed, card.sql, card.sql, allow);
  }

  // What a card binds

  lemma AlikeAt(twin: Text, sql: Text, p: Text, i: int)
    requires Utf8.Alike(twin, sql) && At(twin, p, i) && forall k | 0 <= k < |p| :: !Utf8.Confusable(p[k])
    ensures At(sql, p, i)
  {
    forall k | 0 <= k < |p| ensures sql[i + k] == p[k] {
      assert twin[i..i + |p|][k] == twin[i + k];
    }
    assert sql[i..i + |p|] == p;
  }

  lemma AlikeKeeps(twin: Text, sql: Text, p: Text)
    requires Utf8.Alike(twin, sql) && !Contains(sql, p) && forall k | 0 <= k < |p| :: !Utf8.Confusable(p[k])
    ensures !Contains(twin, p)
  {
    forall i ensures !At(twin, p, i) {
      if At(twin, p, i) {
        AlikeAt(twin, sql, p, i);
      }
    }
  }

  lemma MarkersPlain()
    ensures forall i | 0 <= i < |UNTRUSTED_BEGIN| :: !Utf8.Confusable(UNTRUSTED_BEGIN[i])
    ensures forall i | 0 <= i < |UNTRUSTED_END| :: !Utf8.Confusable(UNTRUSTED_END[i])
    ensures forall i | 0 <= i < |CODE_FENCE| :: !Utf8.Confusable(CODE_FENCE[i])
  {}

  lemma SpacePlain(c: unit)
    ensures IsSpace(c) ==> !Utf8.Confusable(c)
  {}

  /** A twin of a statement that `capped` leaves alone is left alone too. */
  lemma TwinCapped(twin: Text, sql: Text)
    requires Utf8.Alike(twin, sql) && Harmless(sql) && sql != [] && Trimmed(sql) && |sql| <= STATEMENT_CAP
    ensures Capped(Some(twin), STATEMENT_CAP) == twin
  {
    MarkersPlain();
    SpacePlain(twin[0]);
    SpacePlain(twin[|twin| - 1]);
    AlikeKeeps(twin, sql, UNTRUSTED_BEGIN);
    AlikeKeeps(twin, sql, UNTRUSTED_END);
    hide Lit, Contains, Utf8.Confusable, IsSpace, Capped;
    CappedAgain(twin, STATEMENT_CAP);
  }

  /** A statement that was cut comes out of `capped` again when something follows it. */
  lemma TwinCutBack(twin: Text, sql: Text)
    requires Utf8.Alike(twin, sql) && Harmless(sql) && sql != [] && !IsSpace(sql[0]) && |sql| == STATEMENT_CAP
    ensures Capped(Some(twin + [120]), STATEMENT_CAP) == twin
  {
    MarkersPlain();
    SpacePlain(twin[0]);
    AlikeKeeps(twin, sql, UNTRUSTED_BEGIN);
    AlikeKeeps(twin, sql, UNTRUSTED_END);
    MarkersEnd();
    hide Lit, Contains, Utf8.Confusable, ReplaceAll, UNTRUSTED_BEGIN, UNTRUSTED_END;
    var longer := twin + [120];
    LetterAfter(twin, UNTRUSTED_BEGIN);
    LetterAfter(twin, UNTRUSTED_END);
    TrimTrimmed(longer);
    hide IsSpace, Trim;
    NothingReplaced(longer, UNTRUSTED_BEGIN, NEUTRALISED);
    NothingReplaced(longer, UNTRUSTED_END, NEUTRALISED);
    assert longer[..STATEMENT_CAP] == twin;
  }

  lemma MarkersEnd()
    ensures UNTRUSTED_BEGIN != [] && UNTRUSTED_BEGIN[|UNTRUSTED_BEGIN| - 1] == 45
    ensures UNTRUSTED_END != [] && UNTRUSTED_END[|UNTRUSTED_END| - 1] == 45
  {}

  lemma LetterAfter(s: Text, p: Text)
    requires !Contains(s, p) && p != [] && p[|p| - 1] == 45
    ensures !Contains(s + [120], p)
  {
    forall i ensures !At(s + [120], p, i) {
      if At(s + [120], p, i) {
        EarlierOrLast(s, p, i);
      }
    }
  }

  lemma EarlierOrLast(s: Text, p: Text, i: int)
    requires At(s + [120], p, i) && p != [] && p[|p| - 1] == 45
    ensures At(s, p, i)
  {
    var t := s + [120];
    assert t[i..i + |p|][|p| - 1] == t[i + |p| - 1];
    assert i + |p| <= |s|;
    assert s[i..i + |p|] == t[i..i + |p|];
  }

  /** A card whose statement holds a confusable unit is accepted for an answer that carries another statement. */
  lemma CardLoose(asker: Env, c: Checker, signed: Signed, allow: bool) returns (answered: Text)
    requires Asked(asker).Some? && Honours(c, asker, Asked(asker).value.sql) && Ideal(c.verify, KeyOf(c.key), signed)
    requires forall q :: OnlyCard(asker, signed, Asked(asker).value.sql, q)
    requires c.now < asker.mintedAt + APPROVAL_TTL_MS && 0xFFFD in Utf8.Scrubbed(Asked(asker).value.sql)
    ensures var card := Asked(asker).value;
      var accepted := Verified(c, Fields(Some(allow), Some(answered), Some(card.ticket)));
      accepted.Some? && accepted.value.sql != card.sql
  {
    CardFacts(asker);
    var card := Asked(asker).value;
    hide Asked, Trimmed, Capped, Ticket, Verified, Honours, OnlyCard, KeyOf, Utf8.Encode, Utf8.Scrubbed, Ideal, Harmless, IsCapped, IsSpace, Utf8.Alike;
    var twin := Utf8.Twin(card.sql);
    CappedEnds(card.sql, STATEMENT_CAP);
    if Trimmed(card.sql) {
      answered := twin;
      TwinCapped(twin, card.sql);
    } else {
      answered := twin + [120];
      TwinCutBack(twin, card.sql);
    }
    AnswerExact(asker, c, signed, card.sql, answered, allow);
  }

  /** A live card binds its statement exactly when the statement holds neither a lone surrogate nor U+FFFD: then its
      ticket runs nothing else, and otherwise it is also accepted for another statement, of the same bytes. */
  lemma CardBinds(asker: Env, c: Checker, signed: Signed, allow: bool)
    requires Asked(asker).Some? && Honours(c, asker, Asked(asker).value.sql) && Ideal(c.verify, KeyOf(c.key), signed)
    requires forall q :: OnlyCard(asker, signed, Asked(asker).value.sql, q)
    requires c.now < asker.mintedAt + APPROVAL_TTL_MS
    ensures var card := Asked(asker).value;
      (forall q | Verified(c, Fields(Some(allow), Some(q), Some(card.ticket))).Some? ::
        Verified(c, Fields(Some(allow), Some(q), Some(card.ticket))).value.sql == card.sql)
      <==> 0xFFFD !in Utf8.Scrubbed(card.sql)
  {
    CardFacts(asker);
    var card := Asked(asker).value;
    hide Asked, Trimmed, Capped, Ticket, Verified, Honours, OnlyCard, KeyOf, Utf8.Encode, Utf8.Scrubbed, Ideal, Harmless, IsCapped;
    Utf8.BytesDetermineText(card.sql);
    if 0xFFFD in Utf8.Scrubbed(card.sql) {
      var answered := CardLoose(asker, c, signed, allow);
    } else {
      forall q | Verified(c, Fields(Some(allow), Some(q), Some(card.ticket))).Some?
        ensures Verified(c, Fields(Some(allow), Some(q), Some(card.ticket))).value.sql == card.sql
      {
        AnswerExact(asker, c, signed, card.sql, q, allow);
      }
    }
  }

  /** The turn in which the operator's browser answers a card with `answered` and allow. */
  ghost predicate AnsweredWith(env: Env, asker: Env, answered: Text)
    requires Asked(asker).Some?
  {
    && env.answer == Fields(Some(true), Some(answered), Some(Asked(asker).value.ticket))
    && Starts(env) && env.level.SchemaAndLogAndData? && env.runner.Some? && env.gate(answered).None?
    && !env.aborted(0, 0) && !env.aborted(0, 1) && !env.aborted(0, 2)
  }

  /** A ticket is accepted for every statement with the bytes of the one it was minted for. */
  lemma SameBytesAccepted(asker: Env, c: Checker, sql: Text, answered: Text, allow: bool)
    requires Honours(c, asker, sql) && c.now < asker.mintedAt + APPROVAL_TTL_MS
    requires answered != [] && Capped(Some(answered), STATEMENT_CAP) == answered && Utf8.Encode(answered) == Utf8.Encode(sql)
    ensures Verified(c, Fields(Some(allow), Some(answered), Some(Ticket(asker, sql)))) == Some(Approved(allow, answered))
  {
    PayloadBytes(Expiry(asker.mintedAt), c.shardKey, answered, Expiry(asker.mintedAt), c.shardKey, sql);
    hide Capped, Ticket, Approves, SignatureOf, KeyOf, Utf8.Encode, Payload, ReadsPrinted, Expiry;
    TicketRead(asker, c, sql, answered);
  }

  /** A live card allowed on its shard makes the next turn forward the statement of the answer, first, whenever that has
      the card's bytes, is what `capped` leaves alone and holds no triple backtick. */
  lemma AnswerRuns(asker: Env, env: Env, answered: Text)
    requires Asked(asker).Some? && Honours(env.checker, asker, Asked(asker).value.sql)
    requires env.checker.now < asker.mintedAt + APPROVAL_TTL_MS && AnsweredWith(env, asker, answered)
    requires Utf8.Encode(answered) == Utf8.Encode(Asked(asker).value.sql)
    requires answered != [] && Capped(Some(answered), STATEMENT_CAP) == answered && !Contains(answered, CODE_FENCE)
    ensures TurnOf(env).calls != [] && TurnOf(env).calls[0] == Forwarded(RunSql, Some(answered))
  {
    CardFacts(asker);
    hide Asked, Capped, Ticket, Verified, Honours, KeyOf, Utf8.Encode, Harmless, Contains, Starts, TurnOf, Step;
    SameBytesAccepted(asker, env.checker, Asked(asker).value.sql, answered, true);
    ResumedTurnRuns(env, answered);
  }

  /** The whole approval, end to end: when the operator allows a card in time, on its shard, and its statement has no
      white space at its ends and no triple backtick, the next turn forwards exactly that statement, first. */
  lemma ApprovalCompletes(asker: Env, env: Env)
    requires Asked(asker).Some? && Honours(env.checker, asker, Asked(asker).value.sql)
    requires env.checker.now < asker.mintedAt + APPROVAL_TTL_MS && AnsweredWith(env, asker, Asked(asker).value.sql)
    requires Trimmed(Asked(asker).value.sql) && !Contains(Asked(asker).value.sql, CODE_FENCE)
    ensures TurnOf(env).calls != [] && TurnOf(env).calls[0] == Forwarded(RunSql, Some(Asked(asker).value.sql))
  {
    CardFacts(asker);
    hide Asked, Capped, Ticket, Trimmed, Honours, AnsweredWith, Harmless, Contains, TurnOf, Utf8.Encode;
    CappedAgain(Asked(asker).value.sql, STATEMENT_CAP);
    AnswerRuns(asker, env, Asked(asker).value.sql);
  }

  lemma PlainSignature(signature: Text)
    requires forall i | 0 <= i < |signature| :: Base64.InUrlAlphabet(signature[i])
    ensures DOT !in signature && forall u | u in signature :: !IsSpace(u)
  {
    forall u | u in signature ensures u != DOT && !IsSpace(u) {
      var i :| 0 <= i < |signature| && signature[i] == u;
      assert Base64.InUrlAlphabet(signature[i]);
    }
  }

  lemma TicketParts(expiry: Text, signature: Text)
    requires DOT !in expiry && DOT !in signature
    requires forall i | 0 <= i < |expiry| :: 48 <= expiry[i] <= 57
    ensures Split(VERSION + [DOT] + expiry + [DOT] + signature, DOT) == [VERSION, expiry, signature]
    ensures (forall u | u in signature :: !IsSpace(u)) ==>
      forall u | u in VERSION + [DOT] + expiry + [DOT] + signature :: !IsSpace(u)
  {
    assert VERSION == [118, 49];
    hide Lit;
    var parts := [VERSION, expiry, signature];
    assert parts[1..] == [expiry, signature] && parts[1..][1..] == [signature];
    assert Join(parts[1..][1..], [DOT]) == signature;
    assert Join(parts[1..], [DOT]) == expiry + [DOT] + signature;
    assert Join(parts, [DOT]) == VERSION + [DOT] + (expiry + [DOT] + signature);
    assert VERSION + [DOT] + (expiry + [DOT] + signature) == VERSION + [DOT] + expiry + [DOT] + signature;
    SplitJoin(parts, DOT);
  }
}
