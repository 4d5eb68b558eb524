/** The transcript budget of shared/ai-chat.ts: which of the turns a browser re-sends reach the prompt. */
module Transcript {
  import opened JsText
  import opened Prompt

  const MAX_TRANSCRIPT_TURNS: nat := 12
  const MAX_TRANSCRIPT_CHARS: nat := 8000
  const TURN_CAP: nat := 2000

  /** One caller-supplied entry: not an object, or an object's `role` and `text` where they are strings. */
  datatype Entry = NotAnObject | Fields(role: Option<Text>, text: Option<Text>)

  function RoleOf(role: Option<Text>): Option<Role> {
    if role == Some(Lit("assistant")) then Some(Assistant)
    else if role == Some(Lit("user")) then Some(User)
    else None
  }

  /** `chatTurn`. */
  function ChatTurn(entry: Entry): Option<Turn> {
    if entry.NotAnObject? then None
    else
      var trimmed := Capped(entry.text, TURN_CAP);
      if trimmed == [] || RoleOf(entry.role).None? then None else Some(Turn(RoleOf(entry.role).value, trimmed))
  }

  function Parsed(entry: Entry): (turns: seq<Turn>)
    ensures |turns| <= 1
  {
    if ChatTurn(entry).Some? then [ChatTurn(entry).value] else []
  }

  /** The entries that are turns, oldest first. */
  function ValidTurns(entries: seq<Entry>): (turns: seq<Turn>)
    ensures |turns| <= |entries|
  {
    if entries == [] then [] else Parsed(entries[0]) + ValidTurns(entries[1..])
  }

  function Chars(turns: seq<Turn>): nat {
    if turns == [] then 0 else |turns[0].text| + Chars(turns[1..])
  }

  function Last(turns: seq<Turn>, n: nat): seq<Turn>
    requires n <= |turns|
  {
    turns[|turns| - n..]
  }

  lemma {:induction false} ValidTurnsAppend(a: seq<Entry>, b: seq<Entry>)
    ensures ValidTurns(a + b) == ValidTurns(a) + ValidTurns(b)
  {
    hide Parsed;
    if a == [] {
      assert a + b == b;
    } else {
      assert (a + b)[1..] == a[1..] + b;
      ValidTurnsAppend(a[1..], b);
    }
  }

  lemma OneEntry(entry: Entry)
    ensures ValidTurns([entry]) == if ChatTurn(entry).Some? then [ChatTurn(entry).value] else []
  {
    hide ChatTurn;
    assert ValidTurns([entry]) == Parsed(entry) + ValidTurns([]);
  }

  lemma TurnBounds(entry: Entry)
    requires ChatTurn(entry).Some?
    ensures 0 < |ChatTurn(entry).value.text| <= TURN_CAP && Harmless(ChatTurn(entry).value.text)
  {
    hide Capped, RoleOf, Harmless;
    CappedHarmless(entry.text, TURN_CAP);
  }

  ghost predicate Bounded(turns: seq<Turn>) {
    forall t | t in turns :: 0 < |t.text| <= TURN_CAP && Harmless(t.text)
  }

  lemma {:induction false} ValidTurnsBounded(entries: seq<Entry>)
    ensures Bounded(ValidTurns(entries))
  {
    hide ChatTurn, Harmless;
    if entries != [] {
      ValidTurnsBounded(entries[1..]);
      if ChatTurn(entries[0]).Some? {
        TurnBounds(entries[0]);
      }
    }
  }

  lemma {:induction false} CharsAtMost(turns: seq<Turn>)
    requires Bounded(turns)
    ensures Chars(turns) <= TURN_CAP * |turns|
  {
    hide Harmless;
    if turns != [] {
      CharsAtMost(turns[1..]);
    }
  }

  lemma NoEntries(entries: seq<Entry>)
    ensures ValidTurns(entries[|entries| - 1 + 1..]) == []
  {}

  /** Lines 455-467: the newest valid turns up to the turn cap, and the index of the next unread entry. */
  method Newest(entries: seq<Entry>) returns (kept: seq<Turn>, index: int)
    ensures -1 <= index < |entries| && kept == ValidTurns(entries[index + 1..])
    ensures |kept| <= MAX_TRANSCRIPT_TURNS && (index < 0 || |kept| == MAX_TRANSCRIPT_TURNS)
  {
    hide ChatTurn, ValidTurns;
    kept := [];
    index := |entries| - 1;
    NoEntries(entries);
    while index >= 0 && |kept| < MAX_TRANSCRIPT_TURNS
      invariant -1 <= index < |entries|
      invariant kept == ValidTurns(entries[index + 1..])
      invariant |kept| <= MAX_TRANSCRIPT_TURNS
    {
      OneEntry(entries[index]);
      ValidTurnsAppend([entries[index]], entries[index + 1..]);
      assert entries[index..] == [entries[index]] + entries[index + 1..];
      var parsed := ChatTurn(entries[index]);
      if parsed.Some? {
        kept := [parsed.value] + kept;
      }
      index := index - 1;
    }
  }

  lemma NoChars(kept: seq<Turn>)
    ensures Chars([]) == 0 && Last(kept, 0) == []
  {}

  lemma LastStep(kept: seq<Turn>, at: nat)
    requires at < |kept|
    ensures Last(kept, |kept| - at) == [kept[at]] + Last(kept, |kept| - at - 1)
    ensures Chars(Last(kept, |kept| - at)) == |kept[at].text| + Chars(Last(kept, |kept| - at - 1))
  {
    assert kept[at..][0] == kept[at] && kept[at..][1..] == kept[at + 1..];
  }

  lemma LastAll(kept: seq<Turn>)
    ensures forall n | 0 <= n <= |kept| :: |Last(kept, n)| == n
  {}

  /** Lines 472-490: the newest of the kept turns that fit the character cap. */
  method WithinChars(kept: seq<Turn>) returns (cut: bool, turns: seq<Turn>)
    ensures |turns| <= |kept| && turns == Last(kept, |turns|) && Chars(turns) <= MAX_TRANSCRIPT_CHARS
    ensures cut <==> |turns| < |kept|
    ensures cut ==> Chars(Last(kept, |turns| + 1)) > MAX_TRANSCRIPT_CHARS
  {
    hide Chars, Last;
    var total := 0;
    turns, cut := [], false;
    NoChars(kept);
    LastAll(kept);
    var at := |kept| - 1;
    while at >= 0
      invariant -1 <= at < |kept| && !cut
      invariant turns == Last(kept, |kept| - at - 1) && |turns| == |kept| - at - 1
      invariant total == Chars(turns) <= MAX_TRANSCRIPT_CHARS
    {
      LastStep(kept, at);
      if total + |kept[at].text| > MAX_TRANSCRIPT_CHARS {
        cut := true;
        break;
      }
      total := total + |kept[at].text|;
      turns := [kept[at]] + turns;
      at := at - 1;
    }
  }

  /** `budgetTranscript`: the newest valid turns, as many as both budgets allow and never fewer than four of them. */
  method BudgetTranscript(raw: Option<seq<Entry>>) returns (truncated: bool, turns: seq<Turn>)
    ensures var entries := if raw.Some? then raw.value else [];
      var valid := ValidTurns(entries);
      && |turns| <= |valid| && turns == Last(valid, |turns|)
      && |turns| <= MAX_TRANSCRIPT_TURNS && Chars(turns) <= MAX_TRANSCRIPT_CHARS
      && (|turns| == |valid| || |turns| == MAX_TRANSCRIPT_TURNS || Chars(Last(valid, |turns| + 1)) > MAX_TRANSCRIPT_CHARS)
      && (|turns| >= 4 || turns == valid)
      && (truncated <==> |turns| < |entries|)
      && Bounded(turns) && turns == Budgeted(raw)
  {
    hide ChatTurn, ValidTurns, Bounded, Harmless, Chars;
    var entries := if raw.Some? then raw.value else [];
    ghost var valid := ValidTurns(entries);
    var kept, index := Newest(entries);
    KeptSuffix(entries, index + 1);
    truncated := index >= 0 || |kept| != |entries|;
    var cut;
    cut, turns := WithinChars(kept);
    if cut {
      truncated := true;
      LastOfLast(valid, |kept|, |turns| + 1);
    }
    LastOfLast(valid, |kept|, |turns|);
    AtLeastFour(valid, |turns|);
    CountReaches(valid, 0, |turns|);
  }

  /** How many turns the budgets allow: one more while there is one and both budgets hold. */
  function Count(valid: seq<Turn>, n: nat): (count: nat)
    requires n <= |valid|
    ensures n <= count <= |valid|
    decreases |valid| - n
  {
    if n < |valid| && n < MAX_TRANSCRIPT_TURNS && Chars(Last(valid, n + 1)) <= MAX_TRANSCRIPT_CHARS then Count(valid, n + 1) else n
  }

  /** The turns a transcript comes to. */
  function Budgeted(raw: Option<seq<Entry>>): seq<Turn> {
    var valid := ValidTurns(if raw.Some? then raw.value else []);
    Last(valid, Count(valid, 0))
  }

  lemma CharsMonotone(valid: seq<Turn>, m: nat, n: nat)
    requires m <= n <= |valid|
    ensures Chars(Last(valid, m)) <= Chars(Last(valid, n))
    decreases n - m
  {
    if m < n {
      LastStep(valid, |valid| - n);
      CharsMonotone(valid, m, n - 1);
    }
  }

  lemma {:induction false} CountReaches(valid: seq<Turn>, m: nat, n: nat)
    requires m <= n <= |valid| && n <= MAX_TRANSCRIPT_TURNS && Chars(Last(valid, n)) <= MAX_TRANSCRIPT_CHARS
    requires n == |valid| || n == MAX_TRANSCRIPT_TURNS || Chars(Last(valid, n + 1)) > MAX_TRANSCRIPT_CHARS
    ensures Count(valid, m) == n
    decreases n - m
  {
    hide Chars, Last;
    if m < n {
      CharsMonotone(valid, m + 1, n);
      CountReaches(valid, m + 1, n);
    }
  }

  lemma LastOfLast(turns: seq<Turn>, n: nat, m: nat)
    requires m <= n <= |turns|
    ensures Last(Last(turns, n), m) == Last(turns, m)
  {}

  /** What the first loop kept, against all the valid turns. */
  lemma KeptSuffix(entries: seq<Entry>, from: nat)
    requires from <= |entries|
    ensures |ValidTurns(entries[from..])| <= |ValidTurns(entries)|
    ensures ValidTurns(entries[from..]) == Last(ValidTurns(entries), |ValidTurns(entries[from..])|)
    ensures from == 0 ==> ValidTurns(entries[from..]) == ValidTurns(entries)
    ensures |ValidTurns(entries[from..])| <= |entries| - from
  {
    ValidTurnsAppend(entries[..from], entries[from..]);
    assert entries[..from] + entries[from..] == entries;
    hide ChatTurn;
  }

  /** Four turns always fit the character budget. */
  lemma AtLeastFour(valid: seq<Turn>, n: nat)
    requires n <= |valid| && exists entries :: valid == ValidTurns(entries)
    ensures Bounded(Last(valid, n))
    ensures n < 4 && n < |valid| ==> Chars(Last(valid, n + 1)) <= MAX_TRANSCRIPT_CHARS
  {
    var entries :| valid == ValidTurns(entries);
    ValidTurnsBounded(entries);
    hide ValidTurns, Harmless;
    if n < 4 && n < |valid| {
      CharsAtMost(Last(valid, n + 1));
    }
  }
}
