/** What a turn answers (shared/ai-chat.ts): its reply, its card and its reports, told by what its rounds heard. */
module Replies {
  import opened Approval
  import opened ChatTurn
  import opened JsText
  import opened Narrator
  import opened Prompt
  import opened ToolRequest

  // The reply

  /** `reply` holds a tool block: `asked` is what stands in it, `left` what stands around it. */
  ghost predicate Around(reply: Text, left: Text, asked: Text) {
    exists before, inside, closed, after ::
      ToolBlock(reply, before, inside, closed, after) && left == Trim(before + after) && asked == Trim(inside)
  }

  /** What a turn answers that ended in a round whose raw text is `raw`. Without a tool fence it is that text, trimmed.
      With one it is what stands around the block: for a card as it is, with the statement the block asked for; for a
      final reply the limit's text when nothing is left. */
  ghost predicate Answers(env: Env, result: ChatResult, raw: Text)
    requires result.Ok?
  {
    var reply := Trim(raw);
    && reply != [] && result.truncated == Truncated(env)
    && (if !Contains(raw, TOOL_FENCE) then result.pending.None? && !result.partial && result.reply == reply
        else exists left, asked :: Around(reply, left, asked) && AnswersAround(env, result, left, asked))
  }

  ghost predicate AnswersAround(env: Env, result: ChatResult, left: Text, asked: Text)
    requires result.Ok?
  {
    match result.pending
    case None => result.partial && result.reply == if left == [] then TOOL_LIMIT_REPLY else left
    case Some(card) =>
      !result.partial && result.reply == left && Validate(asked, env.level, env.gate) == Call(card.name, Some(card.sql))
  }

  lemma AroundBlock(raw: Text)
    requires Contains(raw, TOOL_FENCE)
    ensures var reply := Trim(raw);
      Request(reply).Some? && Around(reply, WithoutBlock(reply), Request(reply).value)
  {
    TrimKeepsFence(raw);
    hide Trim, Request, WithoutBlock, Contains, ToolBlock, Lit;
    var reply := Trim(raw);
    var before, inside, closed, after := BlockOf(reply);
    BlockRead(reply, before, inside, closed, after);
  }

  lemma ActAnswers(env: Env, truncated: bool, round: nat, st: State, reply: Text, verdict: Verdict)
    ensures var next := Act(env, ApprovedBy(env), truncated, round, st, reply, verdict);
      next.Done? && next.outcome.result.Ok? ==>
        var result := next.outcome.result;
        && result.pending.Some? && !result.partial && result.truncated == truncated && result.reply == WithoutBlock(reply)
        && verdict == Call(result.pending.value.name, Some(result.pending.value.sql))
  {
    hide ApprovedBy, Observed, Lit, ResultText, WithoutBlock, Ticket, RefusedText;
  }

  lemma JudgeAnswers(env: Env, round: nat, st: State, raw: Text)
    ensures var next := Judge(env, ApprovedBy(env), Truncated(env), round, st, raw);
      next.Done? && next.outcome.result.Ok? ==> Answers(env, next.outcome.result, raw)
  {
    RequestExactly(raw);
    var reply := Trim(raw);
    hide Act, Validate, Request, Trim, WithoutBlock, Lit, Contains, Around, ApprovedBy, Truncated;
    if Contains(raw, TOOL_FENCE) {
      AroundBlock(raw);
      ActAnswers(env, Truncated(env), round, st, reply, Validate(Request(reply).value, env.level, env.gate));
    }
  }

  /** The raw text of a round: an inference's, or the request an approval stands for. */
  function Raw(env: Env, round: nat): Text {
    if round == 0 && ApprovedBy(env).Some? then Resumed(ApprovedBy(env).value.sql) else Heard(env.model(round))
  }

  lemma StepAnswers(env: Env, round: nat, st: State)
    ensures var next := Step(env, ApprovedBy(env), Truncated(env), round, st);
      next.Done? && next.outcome.result.Ok? ==> !env.aborted(round, 0) && Answers(env, next.outcome.result, Raw(env, round))
  {
    hide Judge, ApprovedBy, Resumed, Heard, Opened, Answers, Truncated;
    JudgeAnswers(env, round, Opened(env, ApprovedBy(env), round, st), Raw(env, round));
  }

  ghost predicate AnswersLast(env: Env, o: Outcome) {
    o.result.Ok? ==> o.narrated != [] && Answers(env, o.result, Raw(env, |o.narrated| - 1))
  }

  lemma {:induction false} RoundsAnswer(env: Env, round: nat, st: State)
    requires round <= MAX_TOOL_CALLS && |st.narrated| == round
    ensures AnswersLast(env, Rounds(env, ApprovedBy(env), Truncated(env), round, st))
    decreases MAX_TOOL_CALLS - round
  {
    hide *;
    RoundsUnfold(env, ApprovedBy(env), Truncated(env), round, st);
    StepNarrates(env, Truncated(env), round, st);
    StepAnswers(env, round, st);
    match Step(env, ApprovedBy(env), Truncated(env), round, st)
    case Done(outcome) => LastIs(env, round, outcome);
    case Continue(next) => RoundsAnswer(env, round + 1, next);
  }

  lemma LastIs(env: Env, round: nat, o: Outcome)
    requires o.result.Ok? ==> |o.narrated| == round + 1 && Answers(env, o.result, Raw(env, round))
    ensures AnswersLast(env, o)
  {
    hide Answers, Raw;
  }

  /** What every turn answers, told by what its last round's narrator heard, or by the statement approved when its only
      round was the resumed one. */
  lemma TurnAnswers(env: Env)
    ensures var o := TurnOf(env);
      o.result.Ok? ==>
        && o.narrated != []
        && var raw := if |o.narrated| == 1 && ApprovedBy(env).Some? then Resumed(ApprovedBy(env).value.sql)
             else o.narrated[|o.narrated| - 1].heard;
           Answers(env, o.result, raw)
  {
    FlushExactly(env);
    hide Rounds, Capped, ApprovedBy, Answers, Resumed, Heard, Contains, Trim, Visible, Truncated;
    if Starts(env) {
      RoundsAnswer(env, 0, Start(env, Capped(env.prompt, PROMPT_CAP)));
      var o := TurnOf(env);
      if o.result.Ok? {
        assert NarratedRight(env, |o.narrated| - 1, o.narrated[|o.narrated| - 1]);
      }
    }
  }

  // The reports

  /** What reports say was run: those of a tool that was not refused. */
  function RanBy(reports: seq<Report>): seq<Forwarded> {
    if reports == [] then []
    else
      var last := reports[|reports| - 1];
      RanBy(reports[..|reports| - 1])
        + if last.refused.None? && last.name.Some? then [Forwarded(last.name.value, last.sql)] else []
  }

  lemma OneMoreReport(reports: seq<Report>, report: Report)
    ensures RanBy(reports + [report])
      == RanBy(reports) + if report.refused.None? && report.name.Some? then [Forwarded(report.name.value, report.sql)] else []
  {
    assert (reports + [report])[..|reports|] == reports;
  }

  ghost predicate Honest(events: seq<Report>, calls: seq<Forwarded>) {
    calls == RanBy(events)
  }

  lemma ActHonest(env: Env, approved: Option<Approved>, truncated: bool, round: nat, st: State, reply: Text, verdict: Verdict)
    requires Honest(st.events, st.calls)
    ensures var next := Act(env, approved, truncated, round, st, reply, verdict);
      if next.Done? then Honest(next.outcome.events, next.outcome.calls) else Honest(next.state.events, next.state.calls)
  {
    hide RanBy, Observed, Lit, ResultText, WithoutBlock, Ticket, RefusedText;
    forall report ensures RanBy(st.events + [report]) == RanBy(st.events)
      + if report.refused.None? && report.name.Some? then [Forwarded(report.name.value, report.sql)] else []
    {
      OneMoreReport(st.events, report);
    }
  }

  lemma StepHonest(env: Env, approved: Option<Approved>, truncated: bool, round: nat, st: State)
    requires Honest(st.events, st.calls)
    ensures var next := Step(env, approved, truncated, round, st);
      if next.Done? then Honest(next.outcome.events, next.outcome.calls) else Honest(next.state.events, next.state.calls)
  {
    hide Act, Validate, Request, Trim, ChatTurn.Answer, Lit, RanBy, Resumed, Heard, Visible;
    var begun := Opened(env, approved, round, st);
    forall reply, verdict ensures var next := Act(env, approved, truncated, round, begun, reply, verdict);
      if next.Done? then Honest(next.outcome.events, next.outcome.calls) else Honest(next.state.events, next.state.calls)
    {
      ActHonest(env, approved, truncated, round, begun, reply, verdict);
    }
  }

  lemma {:induction false} RoundsHonest(env: Env, approved: Option<Approved>, truncated: bool, round: nat, st: State)
    requires round <= MAX_TOOL_CALLS && Honest(st.events, st.calls)
    ensures var o := Rounds(env, approved, truncated, round, st); Honest(o.events, o.calls)
    decreases MAX_TOOL_CALLS - round
  {
    hide *;
    RoundsUnfold(env, approved, truncated, round, st);
    StepHonest(env, approved, truncated, round, st);
    match Step(env, approved, truncated, round, st)
    case Done(_) =>
    case Continue(next) => RoundsHonest(env, approved, truncated, round + 1, next);
  }

  /** What the operator is told was run is what was run, in order, whatever way the turn ends. */
  lemma ReportsHonest(env: Env)
    ensures TurnOf(env).calls == RanBy(TurnOf(env).events)
  {
    hide Rounds, Capped, ApprovedBy;
    if Starts(env) {
      RoundsHonest(env, ApprovedBy(env), Truncated(env), 0, Start(env, Capped(env.prompt, PROMPT_CAP)));
    }
  }

  /** What a round reports: the tool its request named, and the statement when it ran; a request that did not validate,
      with what was wrong with it. */
  ghost predicate ReportsRound(env: Env, round: nat, report: Report) {
    var request := Request(Trim(Raw(env, round)));
    && request.Some?
    && match Validate(request.value, env.level, env.gate)
       case Refusal(name, needs, refused) => report == Report(name, needs, Some(refused), None)
       case Call(tool, sql) => report.name == Some(tool) && report.needs.None? && (report.refused.None? ==> report.sql == sql)
  }

  /** A round adds its own report, or ends the turn without one. */
  ghost predicate AddsReport(env: Env, round: nat, before: seq<Report>, next: Next) {
    var events := if next.Done? then next.outcome.events else next.state.events;
    (next.Done? && events == before) || exists report :: events == before + [report] && ReportsRound(env, round, report)
  }

  lemma ActReports(env: Env, truncated: bool, round: nat, st: State, asked: Text)
    requires Request(Trim(Raw(env, round))) == Some(asked)
    ensures AddsReport(env, round, st.events,
      Act(env, ApprovedBy(env), truncated, round, st, Trim(Raw(env, round)), Validate(asked, env.level, env.gate)))
  {
    hide ApprovedBy, Observed, Lit, ResultText, WithoutBlock, Ticket, RefusedText, Validate, Raw, Request, Trim;
    forall report: Report ensures (st.events + [report])[|st.events|] == report && |st.events + [report]| != |st.events| {
    }
  }

  lemma JudgeReports(env: Env, truncated: bool, round: nat, st: State)
    ensures AddsReport(env, round, st.events, Judge(env, ApprovedBy(env), truncated, round, st, Raw(env, round)))
  {
    var reply := Trim(Raw(env, round));
    hide Act, Validate, Request, Trim, ChatTurn.Answer, Lit, ApprovedBy, ReportsRound, Raw;
    if Request(reply).Some? {
      ActReports(env, truncated, round, st, Request(reply).value);
    }
  }

  lemma StepReports(env: Env, truncated: bool, round: nat, st: State)
    ensures AddsReport(env, round, st.events, Step(env, ApprovedBy(env), truncated, round, st))
  {
    var begun := Opened(env, ApprovedBy(env), round, st);
    assert begun.events == st.events;
    hide Judge, Resumed, Heard, ApprovedBy, ReportsRound, Opened;
    JudgeReports(env, truncated, round, begun);
  }

  ghost predicate AllReported(env: Env, events: seq<Report>) {
    forall k: nat | k < |events| :: ReportsRound(env, k, events[k])
  }

  lemma OneMoreReported(env: Env, before: seq<Report>, next: Next)
    requires AllReported(env, before) && AddsReport(env, |before|, before, next)
    ensures AllReported(env, if next.Done? then next.outcome.events else next.state.events)
    ensures next.Continue? ==> |next.state.events| == |before| + 1
  {
    hide ReportsRound;
  }

  lemma {:induction false} RoundsReport(env: Env, truncated: bool, round: nat, st: State)
    requires round <= MAX_TOOL_CALLS && |st.events| == round && AllReported(env, st.events)
    ensures AllReported(env, Rounds(env, ApprovedBy(env), truncated, round, st).events)
    decreases MAX_TOOL_CALLS - round
  {
    hide *;
    RoundsUnfold(env, ApprovedBy(env), truncated, round, st);
    StepReports(env, truncated, round, st);
    OneMoreReported(env, st.events, Step(env, ApprovedBy(env), truncated, round, st));
    match Step(env, ApprovedBy(env), truncated, round, st)
    case Done(_) =>
    case Continue(next) => RoundsReport(env, truncated, round + 1, next);
  }

  /** The reports of a turn are its rounds' own, in order, whatever way the turn ends. */
  lemma TurnReports(env: Env)
    ensures AllReported(env, TurnOf(env).events)
  {
    hide Rounds, Capped, ApprovedBy, ReportsRound;
    if Starts(env) {
      RoundsReport(env, Truncated(env), 0, Start(env, Capped(env.prompt, PROMPT_CAP)));
    }
  }
}
