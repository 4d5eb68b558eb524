/** The prompt a chat turn sends, and the fence around everything untrusted in it
    (shared/ai-prompt.ts, and the prompt builders of shared/ai-chat.ts). */
module Prompt {
  import opened JsText

  const UNTRUSTED_BEGIN: Text := Lit("-----BEGIN UNTRUSTED DATA-----")
  const UNTRUSTED_END: Text := Lit("-----END UNTRUSTED DATA-----")
  const NEUTRALISED: Text := Lit("[redacted marker]")

  const KNOWLEDGE_LEAD: Text := Lit("Lunora documentation excerpts") + Lit(" for this question:\n")

  const PROMPT_CAP: nat := 500
  const STATEMENT_CAP: nat := 2000
  const MAX_KNOWLEDGE_EXCERPTS: nat := 4
  const KNOWLEDGE_EXCERPT_CAP: nat := 2100
  const MAX_GROUNDED_TABLES: nat := 40
  const MAX_GROUNDED_COLUMNS: nat := 25
  const MAX_GROUNDED_NAME: nat := 120

  const SPACE: unit := 32
  const DASH: unit := 45

  function Take<E>(s: seq<E>, n: nat): (t: seq<E>)
    ensures |t| <= n && t <= s
  {
    if |s| <= n then s else s[..n]
  }

  function Neutralised(s: Text): Text {
    ReplaceAll(ReplaceAll(s, UNTRUSTED_BEGIN, NEUTRALISED), UNTRUSTED_END, NEUTRALISED)
  }

  /** `capped`: trim, neutralise both markers, cut. `None` is a value that is not a string. */
  function Capped(value: Option<Text>, cap: nat): Text {
    if value.None? then [] else Take(Neutralised(Trim(value.value)), cap)
  }

  /** `s.replaceAll(/\s+/g, " ")`. */
  function CollapseSpace(s: Text): Text
    decreases |s|
  {
    if s == [] then []
    else if !IsSpace(s[0]) then [s[0]] + CollapseSpace(s[1..])
    else [SPACE] + CollapseSpace(TrimStart(s[1..]))
  }

  function GroundedName(name: Text): Text {
    Capped(Some(CollapseSpace(name)), MAX_GROUNDED_NAME)
  }

  datatype SchemaFact = SchemaFact(table: Text, columns: seq<Text>)

  function ColumnNames(fact: SchemaFact): seq<Text> {
    var columns := Take(fact.columns, MAX_GROUNDED_COLUMNS);
    seq(|columns|, i requires 0 <= i < |columns| => GroundedName(columns[i]))
  }

  function GroundedLine(fact: SchemaFact): Text {
    GroundedName(fact.table) + Lit("(") + Join(ColumnNames(fact), Lit(", ")) + Lit(")")
  }

  function GroundingBlock(schema: seq<SchemaFact>): Text {
    var tables := Take(schema, MAX_GROUNDED_TABLES);
    if tables == [] then Lit("No schema information is available.")
    else (
      Lit("Tables and columns in this database:\n")
      + Join(seq(|tables|, i requires 0 <= i < |tables| => GroundedLine(tables[i])), [LF])
    )
  }

  function Excerpts(entries: seq<Option<Text>>): (kept: seq<Text>)
    ensures forall e | e in kept :: exists v :: e == Capped(v, KNOWLEDGE_EXCERPT_CAP)
  {
    if entries == [] then []
    else
      var e := Capped(entries[0], KNOWLEDGE_EXCERPT_CAP);
      (if e == [] then [] else [e]) + Excerpts(entries[1..])
  }

  /** `None` is a value that is not an array. */
  function KnowledgeBlock(value: Option<seq<Option<Text>>>): Text {
    var excerpts := if value.None? then [] else Take(Excerpts(value.value), MAX_KNOWLEDGE_EXCERPTS);
    if excerpts == [] then []
    else (
      KNOWLEDGE_LEAD + UNTRUSTED_BEGIN + [LF]
      + Join(excerpts, [LF]) + [LF] + UNTRUSTED_END + [LF]
    )
  }

  datatype Role = Assistant | User
  datatype Turn = Turn(role: Role, text: Text)

  function TurnLine(turn: Turn): Text {
    (if turn.role.User? then Lit("Developer") else Lit("Assistant")) + Lit(": ") + turn.text
  }

  function TurnLines(turns: seq<Turn>): seq<Text> {
    seq(|turns|, i requires 0 <= i < |turns| => TurnLine(turns[i]))
  }

  function UserPrompt(turns: seq<Turn>, prompt: Text, schema: seq<SchemaFact>, knowledge: Option<seq<Option<Text>>>): Text {
    Join([GroundingBlock(schema), [], KnowledgeBlock(knowledge) + UNTRUSTED_BEGIN] + TurnLines(turns)
      + [Lit("Developer: ") + prompt, UNTRUSTED_END], [LF])
  }

  function Observation(text: Text): Text {
    UNTRUSTED_BEGIN + Lit("\nTool result: ") + Capped(Some(text), STATEMENT_CAP) + [LF] + UNTRUSTED_END
  }

  /** The prompt after one more round: line 985, 1007, 1032 and 1061 of shared/ai-chat.ts. */
  function Observed(user: Text, text: Text): Text {
    user + [LF] + Observation(text)
  }

  // Capped text holds no marker

  ghost predicate Harmless(s: Text) {
    !Contains(s, UNTRUSTED_BEGIN) && !Contains(s, UNTRUSTED_END)
  }

  /** A window that meets `r` meets one of its ends, because it is at least as long. */
  lemma Window<E>(x: seq<E>, r: seq<E>, y: seq<E>, p: seq<E>, i: int)
    requires 0 < |r| <= |p| && At(x + r + y, p, i)
    ensures At(x, p, i) || At(y, p, i - |x| - |r|) || r[0] in p || r[|r| - 1] in p
  {
    var s := x + r + y;
    if i + |p| <= |x| {
      assert x[i..i + |p|] == s[i..i + |p|];
    } else if i >= |x| + |r| {
      var j := i - |x| - |r|;
      assert y[j..j + |p|] == s[i..i + |p|];
    } else if i <= |x| {
      assert p[|x| - i] == s[i..i + |p|][|x| - i] == r[0];
    } else {
      var last := |x| + |r| - 1 - i;
      assert p[last] == s[i..i + |p|][last] == r[|r| - 1];
    }
  }

  lemma NoneAcross<E>(x: seq<E>, r: seq<E>, y: seq<E>, p: seq<E>)
    requires 0 < |r| <= |p| && r[0] !in p && r[|r| - 1] !in p
    requires !Contains(x, p) && !Contains(y, p)
    ensures !Contains(x + r + y, p)
  {
    forall i ensures !At(x + r + y, p, i) {
      if At(x + r + y, p, i) {
        Window(x, r, y, p, i);
      }
    }
  }

  lemma PieceAt<E>(s: seq<E>, lo: nat, hi: nat, p: seq<E>, i: int)
    requires lo <= hi <= |s| && At(s[lo..hi], p, i)
    ensures At(s, p, lo + i)
  {
    forall k | 0 <= k < |p| ensures s[lo + i + k] == p[k] {
      assert s[lo..hi][i..i + |p|][k] == p[k];
    }
    assert s[lo + i..lo + i + |p|] == p;
  }

  lemma AtPiece<E>(s: seq<E>, lo: nat, hi: nat, p: seq<E>, i: int)
    requires lo <= hi <= |s| && At(s, p, i) && lo <= i && i + |p| <= hi
    ensures At(s[lo..hi], p, i - lo)
  {
    forall k | 0 <= k < |p| ensures s[lo..hi][i - lo + k] == p[k] {
      assert s[i..i + |p|][k] == p[k];
    }
    assert s[lo..hi][i - lo..i - lo + |p|] == p;
  }

  lemma PieceFree<E>(s: seq<E>, lo: nat, hi: nat, p: seq<E>)
    requires lo <= hi <= |s| && !Contains(s, p)
    ensures !Contains(s[lo..hi], p)
  {
    forall i ensures !At(s[lo..hi], p, i) {
      if At(s[lo..hi], p, i) {
        PieceAt(s, lo, hi, p, i);
      }
    }
  }

  lemma BeforeFirst<E>(s: seq<E>, p: seq<E>, at: nat)
    requires p != [] && At(s, p, at) && forall i | 0 <= i < at :: !At(s, p, i)
    ensures !Contains(s[..at], p)
  {
    forall i ensures !At(s[..at], p, i) {
      if At(s[..at], p, i) {
        assert s[..at] == s[0..at];
        PieceAt(s, 0, at, p, i);
      }
    }
  }

  lemma {:induction false} ReplacedFree<E>(s: seq<E>, p: seq<E>, r: seq<E>)
    requires 0 < |r| <= |p| && r[0] !in p && r[|r| - 1] !in p
    ensures !Contains(ReplaceAll(s, p, r), p)
    decreases |s|
  {
    var at := IndexOf(s, p);
    if at != -1 {
      BeforeFirst(s, p, at);
      ReplacedFree(s[at + |p|..], p, r);
      NoneAcross(s[..at], r, ReplaceAll(s[at + |p|..], p, r), p);
    }
  }

  lemma {:induction false} ReplaceKeepsFree<E>(s: seq<E>, q: seq<E>, r: seq<E>, p: seq<E>)
    requires q != [] && 0 < |r| <= |p| && r[0] !in p && r[|r| - 1] !in p && !Contains(s, p)
    ensures !Contains(ReplaceAll(s, q, r), p)
    decreases |s|
  {
    var at := IndexOf(s, q);
    if at != -1 {
      PieceFree(s, 0, at, p);
      PieceFree(s, at + |q|, |s|, p);
      assert s[at + |q|..] == s[at + |q|..|s|] && s[..at] == s[0..at];
      ReplaceKeepsFree(s[at + |q|..], q, r, p);
      NoneAcross(s[..at], r, ReplaceAll(s[at + |q|..], q, r), p);
    }
  }

  lemma MarkerFacts()
    ensures |UNTRUSTED_BEGIN| == 30 && |UNTRUSTED_END| == 28 && |NEUTRALISED| == 17
    ensures NEUTRALISED[0] !in UNTRUSTED_BEGIN && NEUTRALISED[16] !in UNTRUSTED_BEGIN
    ensures NEUTRALISED[0] !in UNTRUSTED_END && NEUTRALISED[16] !in UNTRUSTED_END
  {}

  /** The choke point: whatever a caller sends, neither marker survives in it, even where markers overlapped. */
  lemma CappedHarmless(value: Option<Text>, cap: nat)
    ensures Harmless(Capped(value, cap)) && |Capped(value, cap)| <= cap
  {
    if value.Some? {
      NeutralisedHarmless(Trim(value.value));
      var all := Neutralised(Trim(value.value));
      hide Neutralised, Trim, Lit;
      var t := Take(all, cap);
      assert t == all[0..|t|];
      PieceFree(all, 0, |t|, UNTRUSTED_BEGIN);
      PieceFree(all, 0, |t|, UNTRUSTED_END);
    } else {
      MarkerFacts();
    }
  }

  lemma NeutralisedHarmless(s: Text)
    ensures Harmless(Neutralised(s))
  {
    MarkerFacts();
    hide Lit, Contains, ReplaceAll;
    var once := ReplaceAll(s, UNTRUSTED_BEGIN, NEUTRALISED);
    ReplacedFree(s, UNTRUSTED_BEGIN, NEUTRALISED);
    ReplacedFree(once, UNTRUSTED_END, NEUTRALISED);
    ReplaceKeepsFree(once, UNTRUSTED_END, NEUTRALISED, UNTRUSTED_BEGIN);
  }

  /** Capping a text again only trims it: so what `capped` returns is not always what it returns for that. */
  lemma CappedAgain(s: Text, cap: nat)
    requires Harmless(s) && |s| <= cap
    ensures Capped(Some(s), cap) == Trim(s)
    ensures Capped(Some(s), cap) == s <==> Trimmed(s)
  {
    var lo, hi := TrimCuts(s);
    hide Lit, Trim, ReplaceAll;
    PieceFree(s, lo, hi, UNTRUSTED_BEGIN);
    PieceFree(s, lo, hi, UNTRUSTED_END);
    NothingReplaced(Trim(s), UNTRUSTED_BEGIN, NEUTRALISED);
    NothingReplaced(Trim(s), UNTRUSTED_END, NEUTRALISED);
    TrimIsTrimmed(s);
    if Trimmed(s) {
      TrimTrimmed(s);
    }
  }

  /** `s` is what `capped` makes of some text. */
  ghost predicate IsCapped(s: Text, cap: nat) {
    exists value :: Capped(value, cap) == s
  }

  lemma {:induction false} ReplaceEnds(s: Text, p: Text, r: Text)
    requires s != [] && p != [] && r != []
    ensures var t := ReplaceAll(s, p, r);
      && t != [] && (t[0] == s[0] || t[0] == r[0])
      && (t[|t| - 1] == s[|s| - 1] || t[|t| - 1] == r[|r| - 1])
    decreases |s|
  {
    var at := IndexOf(s, p);
    ReplaceFirst(s, p, r);
    hide ReplaceAll, IndexOf, At;
    if at != -1 {
      var rest := s[at + |p|..];
      var tail := ReplaceAll(rest, p, r);
      EndsOf(s[..at], r, tail);
      assert at > 0 ==> s[..at][0] == s[0];
      if rest == [] {
        NothingLeft(p, r);
      } else {
        assert rest[|rest| - 1] == s[|s| - 1];
        ReplaceEnds(rest, p, r);
      }
    }
  }

  lemma EndsOf(x: Text, r: Text, y: Text)
    requires r != []
    ensures var t := x + r + y;
      t != [] && t[0] == (if x == [] then r[0] else x[0]) && t[|t| - 1] == if y == [] then r[|r| - 1] else y[|y| - 1]
  {}

  lemma ReplaceFirst(s: Text, p: Text, r: Text)
    requires p != []
    ensures var at := IndexOf(s, p);
      if at == -1 then ReplaceAll(s, p, r) == s
      else 0 <= at <= |s| - |p| && ReplaceAll(s, p, r) == s[..at] + r + ReplaceAll(s[at + |p|..], p, r)
  {
    hide IndexOf;
  }

  lemma NothingLeft(p: Text, r: Text)
    requires p != []
    ensures ReplaceAll([], p, r) == []
  {}

  lemma NeutralisedEnds(s: Text)
    requires s != [] && Trimmed(s)
    ensures Neutralised(s) != [] && Trimmed(Neutralised(s))
  {
    MarkerFacts();
    NeutralSpaceless();
    hide Lit, ReplaceAll, IsSpace;
    ReplaceEnds(s, UNTRUSTED_BEGIN, NEUTRALISED);
    ReplaceEnds(ReplaceAll(s, UNTRUSTED_BEGIN, NEUTRALISED), UNTRUSTED_END, NEUTRALISED);
  }

  lemma NeutralSpaceless()
    ensures |NEUTRALISED| == 17 && !IsSpace(NEUTRALISED[0]) && !IsSpace(NEUTRALISED[16])
  {}

  /** What `capped` returns starts with no white space, and ends with none unless it was cut. */
  lemma CappedEnds(s: Text, cap: nat)
    requires s != [] && IsCapped(s, cap)
    ensures !IsSpace(s[0]) && (Trimmed(s) || |s| == cap)
  {
    hide Lit, Neutralised, Trim, IsSpace;
    var value :| Capped(value, cap) == s;
    var trimmed := Trim(value.value);
    TrimIsTrimmed(value.value);
    if trimmed == [] {
      NothingNeutralised();
    } else {
      NeutralisedEnds(trimmed);
    }
  }

  lemma NothingNeutralised()
    ensures Neutralised([]) == []
  {
    MarkerFacts();
    hide Lit;
  }

  lemma NothingReplaced(s: Text, p: Text, r: Text)
    requires p != [] && !Contains(s, p)
    ensures ReplaceAll(s, p, r) == s
  {}

  // The markers of a text, in order

  datatype Mark = Begin | End

  predicate StartsWith(s: Text, p: Text) {
    p <= s
  }

  function Marks(s: Text): seq<Mark> {
    if s == [] then []
    else MarkAt(s) + Marks(s[1..])
  }

  /** The units markers are made of. */
  predicate MarkerUnit(c: unit) {
    c == DASH || c == SPACE || 65 <= c <= 90
  }

  lemma MarkerUnits()
    ensures forall i | 0 <= i < |UNTRUSTED_BEGIN| :: MarkerUnit(UNTRUSTED_BEGIN[i])
    ensures forall i | 0 <= i < |UNTRUSTED_END| :: MarkerUnit(UNTRUSTED_END[i])
    ensures UNTRUSTED_BEGIN[0] == DASH && UNTRUSTED_END[0] == DASH
  {}

  lemma PrefixUnit(s: Text, p: Text, n: nat)
    requires StartsWith(s, p) && n < |s|
    ensures n < |p| ==> p[n] == s[n]
  {}

  lemma PrefixCut(x: Text, c: unit, y: Text, p: Text)
    requires !MarkerUnit(c) && forall i | 0 <= i < |p| :: MarkerUnit(p[i])
    ensures StartsWith(x + [c] + y, p) <==> StartsWith(x, p)
  {
    var s := x + [c] + y;
    assert s[|x|] == c;
    if StartsWith(s, p) {
      PrefixUnit(s, p, |x|);
      assert s[..|p|] == x[..|p|];
    }
    if StartsWith(x, p) {
      assert p == x[..|p|] == s[..|p|];
    }
  }

  function MarkAt(s: Text): seq<Mark> {
    if StartsWith(s, UNTRUSTED_BEGIN) then [Begin] else if StartsWith(s, UNTRUSTED_END) then [End] else []
  }

  lemma MarkAtCut(x: Text, c: unit, y: Text)
    requires !MarkerUnit(c)
    ensures MarkAt(x + [c] + y) == MarkAt(x)
  {
    MarkerUnits();
    hide Lit;
    PrefixCut(x, c, y, UNTRUSTED_BEGIN);
    PrefixCut(x, c, y, UNTRUSTED_END);
  }

  lemma MarkAtEmpty()
    ensures MarkAt([]) == []
  {
    MarkerFacts();
  }

  /** No marker reaches across a unit markers do not hold. */
  lemma {:induction false} MarksSplit(x: Text, c: unit, y: Text)
    requires !MarkerUnit(c)
    ensures Marks(x + [c] + y) == Marks(x) + Marks(y)
  {
    hide MarkAt, MarkerUnit;
    MarkAtCut(x, c, y);
    var s := x + [c] + y;
    if x == [] {
      MarkAtEmpty();
      assert s[1..] == y;
    } else {
      MarksSplit(x[1..], c, y);
      assert s[1..] == x[1..] + [c] + y;
    }
  }

  lemma MarksLine(x: Text, y: Text)
    ensures Marks(x + [LF] + y) == Marks(x) + Marks(y)
  {
    MarksSplit(x, LF, y);
  }

  lemma {:induction false} HarmlessMarks(s: Text)
    requires Harmless(s)
    ensures Marks(s) == []
  {
    hide Lit;
    if s != [] {
      assert At(s, UNTRUSTED_BEGIN, 0) <==> StartsWith(s, UNTRUSTED_BEGIN);
      assert At(s, UNTRUSTED_END, 0) <==> StartsWith(s, UNTRUSTED_END);
      PieceFree(s, 1, |s|, UNTRUSTED_BEGIN);
      PieceFree(s, 1, |s|, UNTRUSTED_END);
      assert s[1..] == s[1..|s|];
      HarmlessMarks(s[1..]);
    }
  }

  /** A lead-in without dashes adds no marker. */
  lemma {:induction false} MarksLead(lead: Text, s: Text)
    requires Dashless(lead)
    ensures Marks(lead + s) == Marks(s)
  {
    hide Lit;
    MarkerUnits();
    if lead == [] {
      assert lead + s == s;
    } else {
      assert (lead + s)[0] == lead[0];
      assert (lead + s)[1..] == lead[1..] + s;
      MarksLead(lead[1..], s);
    }
  }

  lemma {:induction false} MarksShort(s: Text)
    requires |s| < 28
    ensures Marks(s) == []
  {
    hide Lit;
    MarkerFacts();
    if s != [] {
      MarksShort(s[1..]);
    }
  }

  lemma MarksOfMarkers()
    ensures Marks(UNTRUSTED_BEGIN) == [Begin] && Marks(UNTRUSTED_END) == [End]
  {
    MarkerLetters();
    hide Lit, UNTRUSTED_BEGIN, UNTRUSTED_END;
    var b, e := UNTRUSTED_BEGIN, UNTRUSTED_END;
    assert b[1..][4] == b[5] && b[2..][3] == b[5];
    assert b[1..][1..] == b[2..] && b[2..][1..] == b[3..];
    MarksShort(b[3..]);
    MarksShort(e[1..]);
    assert !StartsWith(b[1..], e) && !StartsWith(b[2..], e);
    assert Marks(b[2..]) == [] && Marks(b[1..]) == [];
    assert !StartsWith(e, b);
  }

  lemma MarkerLetters()
    ensures var b, e := UNTRUSTED_BEGIN, UNTRUSTED_END;
      |b| == 30 && |e| == 28 && b[5] != e[3] && b[5] != e[4] && b[5] != e[5]
  {
  }

  function MarksOf(parts: seq<Text>): seq<Mark> {
    if parts == [] then [] else Marks(parts[0]) + MarksOf(parts[1..])
  }

  lemma {:induction false} MarksJoin(parts: seq<Text>)
    ensures Marks(Join(parts, [LF])) == MarksOf(parts)
  {
    if |parts| > 1 {
      MarksSplit(parts[0], LF, Join(parts[1..], [LF]));
      MarksJoin(parts[1..]);
    } else if |parts| == 1 {
      assert MarksOf(parts[1..]) == [];
    }
  }

  lemma {:induction false} MarksOfAppend(a: seq<Text>, b: seq<Text>)
    ensures MarksOf(a + b) == MarksOf(a) + MarksOf(b)
  {
    if a == [] {
      assert a + b == b;
    } else {
      assert (a + b)[1..] == a[1..] + b;
      MarksOfAppend(a[1..], b);
    }
  }

  lemma {:induction false} QuietParts(parts: seq<Text>)
    requires forall i | 0 <= i < |parts| :: Marks(parts[i]) == []
    ensures MarksOf(parts) == []
  {
    if parts != [] {
      QuietParts(parts[1..]);
    }
  }

  // The fence discipline

  ghost predicate Quiet(s: Text) {
    Marks(s) == []
  }

  lemma QuietJoin(parts: seq<Text>)
    requires forall i | 0 <= i < |parts| :: Quiet(parts[i])
    ensures Quiet(Join(parts, [LF]))
  {
    MarksJoin(parts);
    QuietParts(parts);
  }

  lemma NameHarmless(name: Text)
    ensures Marks(GroundedName(name)) == [] && Marks([SPACE] + GroundedName(name)) == []
  {
    CappedHarmless(Some(CollapseSpace(name)), MAX_GROUNDED_NAME);
    HarmlessMarks(GroundedName(name));
    MarksLead([SPACE], GroundedName(name));
  }

  /** The names of a line, joined with ", ", and the tail of such a list. */
  lemma {:induction false} NamesQuiet(names: seq<Text>)
    requires forall i | 0 <= i < |names| :: Marks(names[i]) == [] && Marks([SPACE] + names[i]) == []
    ensures Marks(Join(names, [44, SPACE])) == [] && Marks([SPACE] + Join(names, [44, SPACE])) == []
  {
    hide Marks;
    if |names| > 1 {
      NamesQuiet(names[1..]);
      NextName(names[0], Join(names[1..], [44, SPACE]));
    } else if names == [] {
      MarksShort([]);
      MarksShort([SPACE]);
      assert [SPACE] + Join(names, [44, SPACE]) == [SPACE];
    }
  }

  lemma NextName(name: Text, rest: Text)
    requires Marks(name) == [] && Marks([SPACE] + name) == [] && Marks([SPACE] + rest) == []
    ensures Marks(name + [44, SPACE] + rest) == [] && Marks([SPACE] + (name + [44, SPACE] + rest)) == []
  {
    hide *;
    Brackets();
    MarksSplit(name, 44, [SPACE] + rest);
    MarksSplit([SPACE] + name, 44, [SPACE] + rest);
    assert name + [44] + ([SPACE] + rest) == name + [44, SPACE] + rest;
    assert [SPACE] + name + [44] + ([SPACE] + rest) == [SPACE] + (name + [44, SPACE] + rest);
  }

  lemma LineQuiet(fact: SchemaFact)
    ensures Marks(GroundedLine(fact)) == []
  {
    hide *;
    var name, inner := GroundedName(fact.table), Join(ColumnNames(fact), Lit(", "));
    NameHarmless(fact.table);
    ColumnsQuiet(fact);
    Brackets();
    MarksShort([]);
    MarksSplit(inner, 41, []);
    MarksSplit(name, 40, inner + [41] + []);
    LineShape(fact);
    assert name + [40] + inner + [41] == name + [40] + (inner + [41] + []);
  }

  lemma Brackets()
    ensures Lit("(") == [40] && Lit(")") == [41] && Lit(", ") == [44, SPACE] && !MarkerUnit(40) && !MarkerUnit(41) && !MarkerUnit(44)
  {}

  lemma LineShape(fact: SchemaFact)
    ensures GroundedLine(fact) == GroundedName(fact.table) + Lit("(") + Join(ColumnNames(fact), Lit(", ")) + Lit(")")
  {
    hide Lit, GroundedName, Join;
  }

  lemma ColumnsQuiet(fact: SchemaFact)
    ensures Marks(Join(ColumnNames(fact), Lit(", "))) == []
  {
    var names := ColumnNames(fact);
    hide Marks, GroundedName, Join;
    Brackets();
    forall i | 0 <= i < |names| ensures Marks(names[i]) == [] && Marks([SPACE] + names[i]) == [] {
      NameHarmless(Take(fact.columns, MAX_GROUNDED_COLUMNS)[i]);
    }
    NamesQuiet(names);
  }

  ghost predicate Dashless(s: Text) {
    forall i | 0 <= i < |s| :: s[i] != DASH
  }

  lemma NoSchemaText()
    ensures Dashless(Lit("No schema information is available."))
  {}

  lemma SchemaLead()
    ensures Dashless(Lit("Tables and columns in this database:\n"))
  {}

  lemma KnowledgeLead()
    ensures Dashless(KNOWLEDGE_LEAD)
  {
    assert Dashless(Lit("Lunora documentation excerpts"));
    assert Dashless(Lit(" for this question:\n"));
  }

  lemma GroundingQuiet(schema: seq<SchemaFact>)
    ensures Marks(GroundingBlock(schema)) == []
  {
    var tables := Take(schema, MAX_GROUNDED_TABLES);
    var lines := seq(|tables|, i requires 0 <= i < |tables| => GroundedLine(tables[i]));
    forall i | 0 <= i < |lines| ensures Quiet(lines[i]) {
      LineQuiet(tables[i]);
    }
    QuietJoin(lines);
    NoSchemaText();
    SchemaLead();
    MarksShort([]);
    hide Lit, GroundedLine, Marks, Join;
    if tables == [] {
      var none := Lit("No schema information is available.");
      MarksLead(none, []);
      assert none + [] == none;
    } else {
      MarksLead(Lit("Tables and columns in this database:\n"), Join(lines, [LF]));
    }
  }

  /** One fenced block: a lead-in, BEGIN, a body, END. */
  lemma BlockMarks(lead: Text, body: Text, after: Text)
    requires Dashless(lead) && Marks(body) == []
    ensures Marks(lead + UNTRUSTED_BEGIN + [LF] + body + [LF] + UNTRUSTED_END + [LF] + after) == [Begin, End] + Marks(after)
  {
    hide *;
    MarksOfMarkers();
    var b, e := UNTRUSTED_BEGIN, UNTRUSTED_END;
    MarksLine(e, after);
    MarksLine(body, e + [LF] + after);
    var inner := body + [LF] + (e + [LF] + after);
    MarksLine(b, inner);
    MarksLead(lead, b + [LF] + inner);
    assert lead + b + [LF] + body + [LF] + e + [LF] + after == lead + (b + [LF] + inner);
  }

  function KeptExcerpts(value: Option<seq<Option<Text>>>): seq<Text> {
    if value.None? then [] else Take(Excerpts(value.value), MAX_KNOWLEDGE_EXCERPTS)
  }

  lemma KnowledgeMarks(value: Option<seq<Option<Text>>>)
    ensures Marks(KnowledgeBlock(value) + UNTRUSTED_BEGIN) == if KnowledgeBlock(value) == [] then [Begin] else [Begin, End, Begin]
  {
    hide *;
    var excerpts := KeptExcerpts(value);
    KnowledgeShape(value);
    KnowledgeLead();
    MarksOfMarkers();
    ExcerptsQuiet(value);
    if excerpts == [] {
      assert [] + UNTRUSTED_BEGIN == UNTRUSTED_BEGIN;
    } else {
      BlockMarks(KNOWLEDGE_LEAD, Join(excerpts, [LF]), UNTRUSTED_BEGIN);
    }
  }

  lemma ExcerptsQuiet(value: Option<seq<Option<Text>>>)
    ensures Marks(Join(KeptExcerpts(value), [LF])) == []
  {
    var excerpts := KeptExcerpts(value);
    hide Capped, Harmless, Marks, Excerpts;
    forall i | 0 <= i < |excerpts| ensures Quiet(excerpts[i]) {
      assert excerpts[i] in Excerpts(value.value);
      var v :| excerpts[i] == Capped(v, KNOWLEDGE_EXCERPT_CAP);
      CappedHarmless(v, KNOWLEDGE_EXCERPT_CAP);
      HarmlessMarks(excerpts[i]);
    }
    QuietJoin(excerpts);
  }

  lemma KnowledgeShape(value: Option<seq<Option<Text>>>)
    ensures KeptExcerpts(value) == [] ==> KnowledgeBlock(value) == []
    ensures KeptExcerpts(value) != [] ==> KnowledgeBlock(value) != []
    ensures var body := Join(KeptExcerpts(value), [LF]);
      KeptExcerpts(value) == [] || KnowledgeBlock(value) + UNTRUSTED_BEGIN
        == KNOWLEDGE_LEAD + UNTRUSTED_BEGIN + [LF] + body + [LF] + UNTRUSTED_END + [LF] + UNTRUSTED_BEGIN
  {
    hide Lit, Join, Excerpts;
  }

  /** Begin and End in turn, `n` times over. */
  function Pairs(n: nat): seq<Mark> {
    if n == 0 then [] else Pairs(n - 1) + [Begin, End]
  }

  lemma RoleNames()
    ensures Dashless(Lit(": ")) && Dashless(Lit("Developer")) && Dashless(Lit("Assistant"))
  {}

  lemma TurnQuiet(turn: Turn)
    requires Harmless(turn.text)
    ensures Quiet(TurnLine(turn))
  {
    RoleNames();
    hide Lit, Harmless, Marks;
    var name := if turn.role.User? then Lit("Developer") else Lit("Assistant");
    HarmlessMarks(turn.text);
    MarksLead(Lit(": "), turn.text);
    MarksLead(name, Lit(": ") + turn.text);
    assert TurnLine(turn) == name + (Lit(": ") + turn.text);
  }

  /** Every prompt a turn opens with alternates BEGIN and END, whatever its fields hold. */
  lemma UserPromptFenced(turns: seq<Turn>, prompt: Text, schema: seq<SchemaFact>, knowledge: Option<seq<Option<Text>>>)
    requires Harmless(prompt) && forall i | 0 <= i < |turns| :: Harmless(turns[i].text)
    ensures Marks(UserPrompt(turns, prompt, schema, knowledge)) == Pairs(if KnowledgeBlock(knowledge) == [] then 1 else 2)
  {
    hide *;
    var lines := TurnLines(turns);
    TurnsQuiet(turns);
    QuestionQuiet(prompt);
    GroundingQuiet(schema);
    KnowledgeMarks(knowledge);
    MarksOfMarkers();
    MarksShort([]);
    PairsOneTwo();
    var head := [GroundingBlock(schema), [], KnowledgeBlock(knowledge) + UNTRUSTED_BEGIN];
    var foot := [Lit("Developer: ") + prompt, UNTRUSTED_END];
    MarksJoin(head + lines + foot);
    MarksOfAppend(head + lines, foot);
    MarksOfAppend(head, lines);
    MarksOfThree(head);
    MarksOfTwo(foot);
    UserPromptShape(turns, prompt, schema, knowledge);
  }

  // What stands between the markers

  /** A fenced block: whole pairs before it, BEGIN, a body without markers, END, and what follows. */
  ghost predicate Block(text: Text, before: Text, body: Text, after: Text, n: nat) {
    && text == before + UNTRUSTED_BEGIN + [LF] + body + [LF] + UNTRUSTED_END + after
    && Marks(before) == Pairs(n) && Marks(body) == []
  }

  /** `s` stands between a BEGIN and the END that closes it. */
  ghost predicate Enclosed(text: Text, s: Text) {
    exists before, body, after, n, i :: Block(text, before, body, after, n) && At(body, s, i)
  }

  lemma BlockEncloses(text: Text, before: Text, body: Text, after: Text, n: nat, s: Text, i: int)
    requires Block(text, before, body, after, n) && At(body, s, i)
    ensures Enclosed(text, s)
  {
    hide Block, At;
  }

  /** Text added at the end opens no block that was closed. */
  lemma EnclosedStays(text: Text, more: Text, s: Text)
    requires Enclosed(text, s)
    ensures Enclosed(text + more, s)
  {
    hide Marks, Pairs, At, UNTRUSTED_BEGIN, UNTRUSTED_END;
    var before, body, after, n, i :| Block(text, before, body, after, n) && At(body, s, i);
    assert text + more == before + UNTRUSTED_BEGIN + [LF] + body + [LF] + UNTRUSTED_END + (after + more);
    BlockEncloses(text + more, before, body, after + more, n, s, i);
  }

  lemma {:induction false} JoinHolds(parts: seq<Text>, k: nat) returns (i: int)
    requires k < |parts|
    ensures At(Join(parts, [LF]), parts[k], i)
    decreases |parts|
  {
    var t := Join(parts, [LF]);
    if |parts| == 1 {
      i := 0;
      assert t[0..|parts[0]|] == parts[0];
    } else if k == 0 {
      i := 0;
      assert t == parts[0] + ([LF] + Join(parts[1..], [LF]));
      assert t[0..|parts[0]|] == parts[0];
    } else {
      var j := JoinHolds(parts[1..], k - 1);
      var rest := Join(parts[1..], [LF]);
      i := |parts[0]| + 1 + j;
      assert t[i..i + |parts[k]|] == rest[j..j + |parts[k]|];
    }
  }

  lemma {:induction false} JoinAppend(a: seq<Text>, b: seq<Text>)
    requires a != [] && b != []
    ensures Join(a + b, [LF]) == Join(a, [LF]) + [LF] + Join(b, [LF])
  {
    if |a| == 1 {
      assert (a + b)[1..] == b;
    } else {
      JoinAppend(a[1..], b);
      assert (a + b)[1..] == a[1..] + b;
    }
  }

  /** The lines of the transcript and the question. */
  function BodyLines(turns: seq<Turn>, prompt: Text): seq<Text> {
    TurnLines(turns) + [Lit("Developer: ") + prompt]
  }

  /** What stands before the transcript's BEGIN. */
  function Opening(schema: seq<SchemaFact>, knowledge: Option<seq<Option<Text>>>): Text {
    GroundingBlock(schema) + [LF] + [LF] + KnowledgeBlock(knowledge)
  }

  function OpeningPairs(knowledge: Option<seq<Option<Text>>>): nat {
    if KnowledgeBlock(knowledge) == [] then 0 else 1
  }

  lemma OpeningMarks(schema: seq<SchemaFact>, knowledge: Option<seq<Option<Text>>>)
    ensures Marks(Opening(schema, knowledge)) == Pairs(OpeningPairs(knowledge))
  {
    hide *;
    var g, k := GroundingBlock(schema), KnowledgeBlock(knowledge);
    GroundingQuiet(schema);
    MarksShort([]);
    MarksLine(g, []);
    MarksLine(g + [LF], k);
    KnowledgePairs(knowledge);
    assert g + [LF] + [] == g + [LF];
    OpeningIs(schema, knowledge);
  }

  lemma OpeningIs(schema: seq<SchemaFact>, knowledge: Option<seq<Option<Text>>>)
    ensures Opening(schema, knowledge) == GroundingBlock(schema) + [LF] + [LF] + KnowledgeBlock(knowledge)
  {
    hide GroundingBlock, KnowledgeBlock;
  }

  lemma KnowledgePairs(value: Option<seq<Option<Text>>>)
    ensures Marks(KnowledgeBlock(value)) == Pairs(OpeningPairs(value))
  {
    var body := Join(KeptExcerpts(value), [LF]);
    KnowledgeShape(value);
    KnowledgeLead();
    ExcerptsQuiet(value);
    PairsOneTwo();
    MarksShort([]);
    hide Marks, Join, Lit, KeptExcerpts, KnowledgeBlock, UNTRUSTED_BEGIN, UNTRUSTED_END, KNOWLEDGE_LEAD;
    if KnowledgeBlock(value) != [] {
      BlockMarks(KNOWLEDGE_LEAD, body, []);
      var block := KNOWLEDGE_LEAD + UNTRUSTED_BEGIN + [LF] + body + [LF] + UNTRUSTED_END + [LF];
      assert block + [] == block;
      CutEnd(KnowledgeBlock(value), block, UNTRUSTED_BEGIN);
    }
  }

  lemma CutEnd(a: Text, b: Text, c: Text)
    requires a + c == b + c
    ensures a == b
  {
    assert (a + c)[..|a|] == a && (b + c)[..|b|] == b;
  }

  lemma UserPromptBlock(turns: seq<Turn>, prompt: Text, schema: seq<SchemaFact>, knowledge: Option<seq<Option<Text>>>)
    requires Harmless(prompt) && forall i | 0 <= i < |turns| :: Harmless(turns[i].text)
    ensures Block(UserPrompt(turns, prompt, schema, knowledge), Opening(schema, knowledge), Join(BodyLines(turns, prompt), [LF]), [], OpeningPairs(knowledge))
  {
    hide *;
    UserPromptShape(turns, prompt, schema, knowledge);
    OpeningMarks(schema, knowledge);
    OpeningIs(schema, knowledge);
    BodyLinesAre(turns, prompt);
    BodyQuiet(turns, prompt);
    var g, k, b, e := GroundingBlock(schema), KnowledgeBlock(knowledge), UNTRUSTED_BEGIN, UNTRUSTED_END;
    var lines, last := TurnLines(turns), Lit("Developer: ") + prompt;
    var head, asked := [g, [], k + b], BodyLines(turns, prompt);
    assert head + lines + [last, e] == head + (asked + [e]);
    JoinAppend(head, asked + [e]);
    JoinAppend(asked, [e]);
    JoinThree(g, [], k + b);
    JoinOne(e);
    var body := Join(asked, [LF]);
    assert g + [LF] + [] + [LF] + (k + b) + [LF] + (body + [LF] + e) == g + [LF] + [LF] + k + b + [LF] + body + [LF] + e + [];
    BlockIs(UserPrompt(turns, prompt, schema, knowledge), Opening(schema, knowledge), body, [], OpeningPairs(knowledge));
  }

  lemma BlockIs(text: Text, before: Text, body: Text, after: Text, n: nat)
    requires text == before + UNTRUSTED_BEGIN + [LF] + body + [LF] + UNTRUSTED_END + after
    requires Marks(before) == Pairs(n) && Marks(body) == []
    ensures Block(text, before, body, after, n)
  {
    hide Marks, Pairs, Lit;
  }

  lemma JoinOne(a: Text)
    ensures Join([a], [LF]) == a
  {}

  lemma JoinThree(a: Text, b: Text, c: Text)
    ensures Join([a, b, c], [LF]) == a + [LF] + b + [LF] + c
  {
    assert [a, b, c][1..] == [b, c] && [b, c][1..] == [c];
    assert Join([c], [LF]) == c && Join([b, c], [LF]) == b + [LF] + c;
    assert a + [LF] + (b + [LF] + c) == a + [LF] + b + [LF] + c;
  }

  lemma BodyLinesAre(turns: seq<Turn>, prompt: Text)
    ensures BodyLines(turns, prompt) == TurnLines(turns) + [Lit("Developer: ") + prompt]
  {
    hide TurnLines, Lit;
  }

  lemma BodyQuiet(turns: seq<Turn>, prompt: Text)
    requires Harmless(prompt) && forall i | 0 <= i < |turns| :: Harmless(turns[i].text)
    ensures Marks(Join(BodyLines(turns, prompt), [LF])) == []
  {
    hide *;
    BodyLinesAre(turns, prompt);
    TurnsQuiet(turns);
    QuestionQuiet(prompt);
    var last := Lit("Developer: ") + prompt;
    MarksJoin(BodyLines(turns, prompt));
    MarksOfAppend(TurnLines(turns), [last]);
    MarksOfOne(last);
  }

  lemma MarksOfOne(part: Text)
    ensures MarksOf([part]) == Marks(part)
  {
    assert [part][1..] == [];
  }

  /** The question, every turn and every excerpt of a prompt stand between a BEGIN and its END. */
  lemma UserPromptEncloses(turns: seq<Turn>, prompt: Text, schema: seq<SchemaFact>, knowledge: Option<seq<Option<Text>>>, s: Text)
    requires Harmless(prompt) && forall i | 0 <= i < |turns| :: Harmless(turns[i].text)
    requires s == prompt || (exists i :: 0 <= i < |turns| && turns[i].text == s) || s in KeptExcerpts(knowledge)
    ensures Enclosed(UserPrompt(turns, prompt, schema, knowledge), s)
  {
    hide *;
    var text := UserPrompt(turns, prompt, schema, knowledge);
    if s in KeptExcerpts(knowledge) {
      ExcerptBlock(turns, prompt, schema, knowledge);
      ExcerptInside(text, GroundingBlock(schema) + [LF] + [LF] + KNOWLEDGE_LEAD, KeptExcerpts(knowledge), s);
    } else {
      UserPromptBlock(turns, prompt, schema, knowledge);
      var i := BodyHolds(turns, prompt, s);
      BlockEncloses(text, Opening(schema, knowledge), Join(BodyLines(turns, prompt), [LF]), [], OpeningPairs(knowledge), s, i);
    }
  }

  lemma ExcerptInside(text: Text, before: Text, excerpts: seq<Text>, s: Text)
    requires s in excerpts && exists after :: Block(text, before, Join(excerpts, [LF]), after, 0)
    ensures Enclosed(text, s)
  {
    hide Block, At;
    var after :| Block(text, before, Join(excerpts, [LF]), after, 0);
    var k :| 0 <= k < |excerpts| && excerpts[k] == s;
    var i := JoinHolds(excerpts, k);
    BlockEncloses(text, before, Join(excerpts, [LF]), after, 0, s, i);
  }

  lemma ExcerptBlock(turns: seq<Turn>, prompt: Text, schema: seq<SchemaFact>, knowledge: Option<seq<Option<Text>>>)
    requires KeptExcerpts(knowledge) != []
    requires Harmless(prompt) && forall i | 0 <= i < |turns| :: Harmless(turns[i].text)
    ensures exists after ::
      Block(UserPrompt(turns, prompt, schema, knowledge), GroundingBlock(schema) + [LF] + [LF] + KNOWLEDGE_LEAD,
        Join(KeptExcerpts(knowledge), [LF]), after, 0)
  {
    hide *;
    var text := UserPrompt(turns, prompt, schema, knowledge);
    UserPromptBlock(turns, prompt, schema, knowledge);
    BlockText(text, Opening(schema, knowledge), Join(BodyLines(turns, prompt), [LF]), [], OpeningPairs(knowledge));
    OpeningIs(schema, knowledge);
    KnowledgeShape(knowledge);
    ExcerptsQuiet(knowledge);
    LeadQuiet(schema);
    var g, k, lead, b, e := GroundingBlock(schema), KnowledgeBlock(knowledge), KNOWLEDGE_LEAD, UNTRUSTED_BEGIN, UNTRUSTED_END;
    var body, asked := Join(KeptExcerpts(knowledge), [LF]), Join(BodyLines(turns, prompt), [LF]);
    var after := [LF] + b + [LF] + asked + [LF] + e;
    NestedBlock(g, k, lead, b, e, body, asked);
    PairsNone();
    BlockIs(text, g + [LF] + [LF] + lead, body, after, 0);
  }

  lemma NestedBlock(g: Text, k: Text, lead: Text, b: Text, e: Text, body: Text, asked: Text)
    requires k + b == lead + b + [LF] + body + [LF] + e + [LF] + b
    ensures (g + [LF] + [LF] + k) + b + [LF] + asked + [LF] + e + []
      == g + [LF] + [LF] + lead + b + [LF] + body + [LF] + e + ([LF] + b + [LF] + asked + [LF] + e)
  {
    var open, close := g + [LF] + [LF], [LF] + asked + [LF] + e;
    assert (open + k) + b + [LF] + asked + [LF] + e + [] == open + (k + b) + close;
    assert open + (lead + b + [LF] + body + [LF] + e + [LF] + b) + close
      == open + lead + b + [LF] + body + [LF] + e + ([LF] + b + [LF] + asked + [LF] + e);
  }

  lemma PairsNone()
    ensures Pairs(0) == []
  {}

  lemma BlockText(text: Text, before: Text, body: Text, after: Text, n: nat)
    requires Block(text, before, body, after, n)
    ensures text == before + UNTRUSTED_BEGIN + [LF] + body + [LF] + UNTRUSTED_END + after
  {
    hide Marks, Pairs, Lit;
  }

  lemma LeadQuiet(schema: seq<SchemaFact>)
    ensures Marks(GroundingBlock(schema) + [LF] + [LF] + KNOWLEDGE_LEAD) == []
  {
    hide *;
    var g := GroundingBlock(schema);
    GroundingQuiet(schema);
    KnowledgeLead();
    MarksShort([]);
    MarksLead(KNOWLEDGE_LEAD, []);
    assert KNOWLEDGE_LEAD + [] == KNOWLEDGE_LEAD;
    MarksLine(g, []);
    assert g + [LF] + [] == g + [LF];
    MarksLine(g + [LF], KNOWLEDGE_LEAD);
  }

  lemma BodyHolds(turns: seq<Turn>, prompt: Text, s: Text) returns (i: int)
    requires s == prompt || exists k :: 0 <= k < |turns| && turns[k].text == s
    ensures At(Join(BodyLines(turns, prompt), [LF]), s, i)
  {
    hide Lit, Join;
    var parts := BodyLines(turns, prompt);
    var k: nat;
    var lead: Text;
    if s == prompt {
      k, lead := |turns|, Lit("Developer: ");
      assert parts[k] == lead + s;
    } else {
      k :| k < |turns| && turns[k].text == s;
      lead := (if turns[k].role.User? then Lit("Developer") else Lit("Assistant")) + Lit(": ");
      assert parts[k] == TurnLine(turns[k]) == lead + s;
    }
    var j := JoinHolds(parts, k);
    i := j + |lead|;
    AtTail(Join(parts, [LF]), lead, s, j);
  }

  lemma AtTail(t: Text, lead: Text, s: Text, j: int)
    requires At(t, lead + s, j)
    ensures At(t, s, j + |lead|)
  {
    assert t[j..j + |lead + s|][|lead|..] == s;
  }

  // A prompt after some rounds

  /** The prompt once each of `told` has been appended as an observation. */
  function Conversation(user: Text, told: seq<Text>): Text {
    if told == [] then user else Observed(Conversation(user, told[..|told| - 1]), told[|told| - 1])
  }

  lemma {:induction false} ConversationFenced(user: Text, told: seq<Text>, n: nat)
    requires Marks(user) == Pairs(n)
    ensures Marks(Conversation(user, told)) == Pairs(n + |told|)
  {
    hide Marks, Pairs, Observed;
    if told != [] {
      var last := |told| - 1;
      ConversationFenced(user, told[..last], n);
      ObservedFenced(Conversation(user, told[..last]), told[last], n + last);
    }
  }

  /** What stood between markers still does, and so does every tool outcome, capped. */
  lemma {:induction false} ConversationEncloses(user: Text, told: seq<Text>, n: nat, s: Text)
    requires Marks(user) == Pairs(n)
    requires Enclosed(user, s) || exists i :: 0 <= i < |told| && Capped(Some(told[i]), STATEMENT_CAP) == s
    ensures Enclosed(Conversation(user, told), s)
  {
    hide Marks, Pairs, Enclosed, Capped, Observation;
    if told != [] {
      var last := |told| - 1;
      var before := Conversation(user, told[..last]);
      ConversationFenced(user, told[..last], n);
      if Capped(Some(told[last]), STATEMENT_CAP) == s {
        ObservedEncloses(before, told[last], n + last);
      } else {
        assert forall i | 0 <= i < last :: told[..last][i] == told[i];
        ConversationEncloses(user, told[..last], n, s);
        EnclosedStays(before, [LF] + Observation(told[last]), s);
        assert before + ([LF] + Observation(told[last])) == before + [LF] + Observation(told[last]);
      }
    }
  }

  lemma ObservedEncloses(user: Text, text: Text, n: nat)
    requires Marks(user) == Pairs(n)
    ensures Enclosed(Observed(user, text), Capped(Some(text), STATEMENT_CAP))
  {
    hide *;
    var lead, capped := Lit("Tool result: "), Capped(Some(text), STATEMENT_CAP);
    CappedHarmless(Some(text), STATEMENT_CAP);
    HarmlessMarks(capped);
    ResultLead();
    ObservationShape(user, text, n);
    MarksLead(lead, capped);
    MarksShort([]);
    MarksLine(user, []);
    assert user + [LF] + [] == user + [LF];
    var b, e := UNTRUSTED_BEGIN, UNTRUSTED_END;
    assert user + [LF] + (b + [LF] + (lead + capped + [LF] + e)) == (user + [LF]) + b + [LF] + (lead + capped) + [LF] + e + [];
    BlockIs(Observed(user, text), user + [LF], lead + capped, [], n);
    AtEnd(lead, capped);
    BlockEncloses(Observed(user, text), user + [LF], lead + capped, [], n, capped, |lead|);
  }

  lemma AtEnd(lead: Text, s: Text)
    ensures At(lead + s, s, |lead|)
  {}

  lemma UserPromptShape(turns: seq<Turn>, prompt: Text, schema: seq<SchemaFact>, knowledge: Option<seq<Option<Text>>>)
    ensures UserPrompt(turns, prompt, schema, knowledge)
      == Join([GroundingBlock(schema), [], KnowledgeBlock(knowledge) + UNTRUSTED_BEGIN] + TurnLines(turns)
           + [Lit("Developer: ") + prompt, UNTRUSTED_END], [LF])
  {
    hide Lit, Join, GroundingBlock, KnowledgeBlock, TurnLines;
  }

  lemma TurnsQuiet(turns: seq<Turn>)
    requires forall i | 0 <= i < |turns| :: Harmless(turns[i].text)
    ensures MarksOf(TurnLines(turns)) == []
  {
    hide Marks, TurnLine, Harmless;
    forall i | 0 <= i < |turns| ensures Quiet(TurnLine(turns[i])) {
      TurnQuiet(turns[i]);
    }
    QuietParts(TurnLines(turns));
  }

  lemma QuestionQuiet(prompt: Text)
    requires Harmless(prompt)
    ensures Marks(Lit("Developer: ") + prompt) == []
  {
    assert Dashless(Lit("Developer: "));
    hide Lit, Marks, Harmless;
    HarmlessMarks(prompt);
    MarksLead(Lit("Developer: "), prompt);
  }

  lemma PairsOneTwo()
    ensures Pairs(1) == [Begin, End] && Pairs(2) == [Begin, End, Begin, End]
  {
    assert Pairs(0) == [] && Pairs(1) == Pairs(0) + [Begin, End] && Pairs(2) == Pairs(1) + [Begin, End];
  }

  lemma MarksOfTwo(parts: seq<Text>)
    requires |parts| == 2
    ensures MarksOf(parts) == Marks(parts[0]) + Marks(parts[1])
  {
    assert parts[1..][1..] == [];
    assert MarksOf(parts[1..]) == Marks(parts[1]) + MarksOf([]);
  }

  lemma MarksOfThree(parts: seq<Text>)
    requires |parts| == 3
    ensures MarksOf(parts) == Marks(parts[0]) + Marks(parts[1]) + Marks(parts[2])
  {
    MarksOfTwo(parts[1..]);
  }

  /** A tool outcome adds one more pair. */
  lemma ObservedFenced(user: Text, text: Text, n: nat)
    requires Marks(user) == Pairs(n)
    ensures Marks(Observed(user, text)) == Pairs(n + 1)
  {
    hide *;
    var lead, body := Lit("Tool result: "), Capped(Some(text), STATEMENT_CAP);
    CappedHarmless(Some(text), STATEMENT_CAP);
    HarmlessMarks(body);
    MarksOfMarkers();
    ResultLead();
    ObservationShape(user, text, n);
    MarksLead(lead, body);
    MarksLine(lead + body, UNTRUSTED_END);
    MarksLine(UNTRUSTED_BEGIN, lead + body + [LF] + UNTRUSTED_END);
    MarksLine(user, Observation(text));
  }

  lemma ResultLead()
    ensures Dashless(Lit("Tool result: ")) && Lit("\nTool result: ") == [LF] + Lit("Tool result: ")
  {}

  lemma ObservationShape(user: Text, text: Text, n: nat)
    ensures Observation(text) == UNTRUSTED_BEGIN + [LF] + (Lit("Tool result: ") + Capped(Some(text), STATEMENT_CAP) + [LF] + UNTRUSTED_END)
    ensures Observed(user, text) == user + [LF] + Observation(text)
    ensures Pairs(n + 1) == Pairs(n) + [Begin, End]
  {
    ResultLead();
    hide Capped, Lit;
    var body := Capped(Some(text), STATEMENT_CAP);
    assert UNTRUSTED_BEGIN + ([LF] + Lit("Tool result: ")) + body + [LF] + UNTRUSTED_END
      == UNTRUSTED_BEGIN + [LF] + (Lit("Tool result: ") + body + [LF] + UNTRUSTED_END);
  }

  /** `capped` leaves alone a short text without white space: the markers hold spaces. */
  lemma CappedPlain(s: Text, cap: nat)
    requires s != [] && |s| <= cap && forall u | u in s :: !IsSpace(u)
    ensures Capped(Some(s), cap) == s
  {
    MarkersHoldSpaces();
    hide Lit, IsSpace;
    TrimTrimmed(s);
    forall i ensures !At(s, UNTRUSTED_BEGIN, i) && !At(s, UNTRUSTED_END, i) {
      if At(s, UNTRUSTED_BEGIN, i) {
        SpaceInside(s, UNTRUSTED_BEGIN, i, 10);
      }
      if At(s, UNTRUSTED_END, i) {
        SpaceInside(s, UNTRUSTED_END, i, 8);
      }
    }
  }

  lemma MarkersHoldSpaces()
    ensures |UNTRUSTED_BEGIN| == 30 && IsSpace(UNTRUSTED_BEGIN[10]) && |UNTRUSTED_END| == 28 && IsSpace(UNTRUSTED_END[8])
  {}

  lemma SpaceInside(s: Text, p: Text, i: int, k: nat)
    requires At(s, p, i) && k < |p| && IsSpace(p[k])
    ensures exists u :: u in s && IsSpace(u)
  {
    assert s[i..i + |p|][k] == s[i + k];
    assert s[i + k] in s;
  }
}
