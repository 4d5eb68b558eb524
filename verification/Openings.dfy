/** What the opening prompt of a turn says (shared/ai-prompt.ts and shared/ai-chat.ts): the tables it grounds the model in,
    the excerpts it quotes and whom it has each turn spoken by. */
module Openings {
  import opened JsText
  import opened Prompt
  import Transcript

  // The tables

  /** A line of a table's name and the names of its first 25 columns. */
  ghost predicate Grounds(line: Text, fact: SchemaFact) {
    exists names: seq<Text> ::
      && line == GroundedName(fact.table) + Lit("(") + Join(names, Lit(", ")) + Lit(")")
      && |names| == (if |fact.columns| < 25 then |fact.columns| else 25)
      && forall j | 0 <= j < |names| :: names[j] == GroundedName(fact.columns[j])
  }

  lemma LineGrounds(fact: SchemaFact)
    ensures Grounds(GroundedLine(fact), fact)
  {
    var names := ColumnNames(fact);
    assert |names| == if |fact.columns| < 25 then |fact.columns| else 25;
    assert forall j | 0 <= j < |names| :: names[j] == GroundedName(fact.columns[j]);
    assert GroundedLine(fact) == GroundedName(fact.table) + Lit("(") + Join(names, Lit(", ")) + Lit(")");
    hide GroundedLine, GroundedName, ColumnNames, Join, Lit;
  }

  lemma {:induction false} CollapsedNoLine(s: Text)
    ensures LF !in CollapseSpace(s)
    decreases |s|
  {
    assert IsSpace(LF);
    hide IsSpace;
    if s != [] {
      if IsSpace(s[0]) {
        CollapsedNoLine(TrimStart(s[1..]));
      } else {
        CollapsedNoLine(s[1..]);
      }
    }
  }

  lemma {:induction false} ReplacedWithout<E>(s: seq<E>, p: seq<E>, r: seq<E>, u: E)
    requires p != [] && u !in s && u !in r
    ensures u !in ReplaceAll(s, p, r)
    decreases |s|
  {
    var at := IndexOf(s, p);
    if at != -1 {
      ReplacedWithout(s[at + |p|..], p, r, u);
    }
  }

  lemma CappedWithout(s: Text, cap: nat)
    requires LF !in s
    ensures LF !in Capped(Some(s), cap)
  {
    var lo, hi := TrimCuts(s);
    MarkerFacts();
    hide Lit, Trim, ReplaceAll;
    assert LF !in Trim(s);
    ReplacedWithout(Trim(s), UNTRUSTED_BEGIN, NEUTRALISED, LF);
    ReplacedWithout(ReplaceAll(Trim(s), UNTRUSTED_BEGIN, NEUTRALISED), UNTRUSTED_END, NEUTRALISED, LF);
  }

  lemma MarkerFacts()
    ensures UNTRUSTED_BEGIN != [] && UNTRUSTED_END != [] && LF !in NEUTRALISED
  {}

  lemma NameIsOneLine(name: Text)
    ensures LF !in GroundedName(name)
  {
    CollapsedNoLine(name);
    hide CollapseSpace, Capped;
    CappedWithout(CollapseSpace(name), MAX_GROUNDED_NAME);
  }

  lemma {:induction false} JoinedWithout(parts: seq<Text>, sep: Text)
    requires LF !in sep && forall k | 0 <= k < |parts| :: LF !in parts[k]
    ensures LF !in Join(parts, sep)
  {
    if |parts| > 1 {
      JoinedWithout(parts[1..], sep);
    }
  }

  lemma LineIsOneLine(fact: SchemaFact)
    ensures LF !in GroundedLine(fact)
  {
    Punctuation();
    hide Lit, GroundedName, Join;
    NameIsOneLine(fact.table);
    var names := ColumnNames(fact);
    forall k | 0 <= k < |names| ensures LF !in names[k] {
      NameIsOneLine(fact.columns[k]);
    }
    JoinedWithout(names, Lit(", "));
  }

  lemma Punctuation()
    ensures LF !in Lit("(") && LF !in Lit(", ") && LF !in Lit(")")
    ensures LF !in Lit("No schema information is available.") && LF !in Lit("Tables and columns in this database:")
    ensures Lit("Tables and columns in this database:\n") == Lit("Tables and columns in this database:") + [LF]
  {}

  /** The first lines of a text: the heading and a line for each of the first 40 tables, in order. */
  ghost predicate Grounded(lines: seq<Text>, schema: seq<SchemaFact>) {
    if schema == [] then lines == [Lit("No schema information is available.")]
    else
      && |lines| == 1 + (if |schema| < 40 then |schema| else 40)
      && lines[0] == Lit("Tables and columns in this database:")
      && forall i | 1 <= i < |lines| :: Grounds(lines[i], schema[i - 1])
  }

  lemma BlockGrounds(schema: seq<SchemaFact>)
    ensures Grounded(Split(GroundingBlock(schema), LF), schema)
  {
    Punctuation();
    if schema == [] {
      NoSplit(Lit("No schema information is available."), LF);
      hide Lit;
    } else {
      hide *;
      var lines := TableLines(schema);
      BlockLines(schema, lines);
      HeadedLines(Lit("Tables and columns in this database:"), lines);
      LinesGround(schema, lines);
    }
  }

  lemma LinesGround(schema: seq<SchemaFact>, lines: seq<Text>)
    requires schema != [] && |lines| == (if |schema| < 40 then |schema| else 40)
    requires forall i | 0 <= i < |lines| :: Grounds(lines[i], schema[i])
    ensures Grounded([Lit("Tables and columns in this database:")] + lines, schema)
  {
    hide Lit, Grounds;
  }

  lemma TableLines(schema: seq<SchemaFact>) returns (lines: seq<Text>)
    ensures |lines| == if |schema| < 40 then |schema| else 40
    ensures forall i | 0 <= i < |lines| :: lines[i] == GroundedLine(schema[i]) && LF !in lines[i] && Grounds(lines[i], schema[i])
  {
    hide GroundedLine, Grounds;
    var n := if |schema| < 40 then |schema| else 40;
    lines := seq(n, i requires 0 <= i < n => GroundedLine(schema[i]));
    forall i | 0 <= i < n ensures LF !in lines[i] && Grounds(lines[i], schema[i]) {
      LineIsOneLine(schema[i]);
      LineGrounds(schema[i]);
    }
  }

  lemma BlockLines(schema: seq<SchemaFact>, lines: seq<Text>)
    requires schema != [] && |lines| == (if |schema| < 40 then |schema| else 40)
    requires forall i | 0 <= i < |lines| :: lines[i] == GroundedLine(schema[i])
    ensures GroundingBlock(schema) == Lit("Tables and columns in this database:\n") + Join(lines, [LF])
  {
    hide Lit, GroundedLine, Join;
    var tables := Take(schema, MAX_GROUNDED_TABLES);
    assert seq(|tables|, i requires 0 <= i < |tables| => GroundedLine(tables[i])) == lines;
  }

  lemma HeadedLines(head: Text, lines: seq<Text>)
    requires LF !in head && lines != [] && forall k | 0 <= k < |lines| :: LF !in lines[k]
    ensures Split(head + [LF] + Join(lines, [LF]), LF) == [head] + lines
  {
    hide Split, Join;
    NoSplit(head, LF);
    SplitJoin(lines, LF);
    SplitAt(head, LF, Join(lines, [LF]));
  }

  /** An opening prompt begins with the lines of its schema and a blank line. */
  lemma PromptGrounds(turns: seq<Turn>, prompt: Text, schema: seq<SchemaFact>, knowledge: Option<seq<Option<Text>>>)
    ensures exists n: nat ::
      var lines := Split(UserPrompt(turns, prompt, schema, knowledge), LF);
      n < |lines| && Grounded(lines[..n], schema) && lines[n] == []
  {
    hide *;
    UserPromptShape(turns, prompt, schema, knowledge);
    var g := GroundingBlock(schema);
    var rest := [KnowledgeBlock(knowledge) + UNTRUSTED_BEGIN] + TurnLines(turns) + [Lit("Developer: ") + prompt, UNTRUSTED_END];
    BlockGrounds(schema);
    JoinTwoAhead(g, rest);
    assert [g, [], KnowledgeBlock(knowledge) + UNTRUSTED_BEGIN] + TurnLines(turns) + [Lit("Developer: ") + prompt, UNTRUSTED_END]
      == [g, []] + rest;
    SplitAt(g, LF, [LF] + Join(rest, [LF]));
    SplitCons(LF, Join(rest, [LF]), LF);
    assert g + [LF] + [LF] + Join(rest, [LF]) == g + [LF] + ([LF] + Join(rest, [LF]));
    var lines, n := Split(UserPrompt(turns, prompt, schema, knowledge), LF), |Split(g, LF)|;
    assert lines == Split(g, LF) + ([[]] + Split(Join(rest, [LF]), LF));
    assert lines[..n] == Split(g, LF);
  }

  lemma JoinTwoAhead(g: Text, rest: seq<Text>)
    requires rest != []
    ensures Join([g, []] + rest, [LF]) == g + [LF] + [LF] + Join(rest, [LF])
  {
    assert ([g, []] + rest)[1..] == [[]] + rest;
    assert ([[]] + rest)[1..] == rest;
  }

  lemma {:induction false} CollapsedPlain(s: Text)
    requires forall u | u in s :: !IsSpace(u)
    ensures CollapseSpace(s) == s
  {
    hide IsSpace;
    if s != [] {
      CollapsedPlain(s[1..]);
    }
  }

  /** A name without white space is written as it is, up to its first 120 characters. */
  lemma NameAsIs(name: Text)
    requires name != [] && |name| <= 120 && forall u | u in name :: !IsSpace(u)
    ensures GroundedName(name) == name
  {
    CollapsedPlain(name);
    hide CollapseSpace, Capped, IsSpace;
    CappedPlain(name, MAX_GROUNDED_NAME);
  }

  // The excerpts

  /** `at` picks the first four entries that are not blank once capped, or all of them if there are fewer. */
  ghost predicate FirstFour(entries: seq<Option<Text>>, at: seq<nat>) {
    && |at| <= 4 && (forall i | 0 <= i < |at| :: at[i] < |entries|)
    && (forall i, j | 0 <= i < j < |at| :: at[i] < at[j])
    && (forall i | 0 <= i < |at| :: Capped(entries[at[i]], 2100) != [])
    && forall k | 0 <= k < |entries| && Capped(entries[k], 2100) != [] ::
         k in at || (|at| == 4 && k > at[3])
  }

  /** The excerpts quoted are those, in order. */
  lemma ExcerptsKept(entries: seq<Option<Text>>) returns (at: seq<nat>)
    ensures FirstFour(entries, at)
    ensures |KeptExcerpts(Some(entries))| == |at|
    ensures forall i | 0 <= i < |at| :: KeptExcerpts(Some(entries))[i] == Capped(entries[at[i]], 2100)
  {
    var all := ExcerptsAt(entries, 0);
    assert entries[0..] == entries;
    hide Capped, Excerpts;
    at := Take(all, 4);
    forall k | 0 <= k < |entries| && Capped(entries[k], 2100) != [] ensures k in at || (|at| == 4 && k > at[3]) {
      FourOrLater(all, at, k);
    }
  }

  lemma FourOrLater(all: seq<nat>, at: seq<nat>, k: nat)
    requires k in all && at == Take(all, 4) && forall i, j | 0 <= i < j < |all| :: all[i] < all[j]
    ensures k in at || (|at| == 4 && k > at[3])
  {
    var i :| 0 <= i < |all| && all[i] == k;
    if i < |at| {
      assert at[i] == k;
    }
  }

  /** Where from `from` on the entries are that are not blank once capped. */
  ghost predicate Positions(entries: seq<Option<Text>>, from: nat, at: seq<nat>) {
    && (forall i | 0 <= i < |at| :: from <= at[i] < |entries| && Capped(entries[at[i]], 2100) != [])
    && (forall i, j | 0 <= i < j < |at| :: at[i] < at[j])
    && forall k | from <= k < |entries| && Capped(entries[k], 2100) != [] :: k in at
  }

  lemma OneMorePosition(entries: seq<Option<Text>>, from: nat, rest: seq<nat>, at: seq<nat>)
    requires from < |entries| && Positions(entries, from + 1, rest)
    requires at == if Capped(entries[from], 2100) == [] then rest else [from] + rest
    ensures Positions(entries, from, at)
  {
    hide Capped;
    forall k | from <= k < |entries| && Capped(entries[k], 2100) != [] ensures k in at {
      assert k > from ==> k in rest;
    }
  }

  ghost predicate Quotes(entries: seq<Option<Text>>, at: seq<nat>, texts: seq<Text>) {
    |texts| == |at| && forall i | 0 <= i < |at| :: at[i] < |entries| && texts[i] == Capped(entries[at[i]], 2100)
  }

  lemma {:induction false} ExcerptsAt(entries: seq<Option<Text>>, from: nat) returns (at: seq<nat>)
    requires from <= |entries|
    ensures Positions(entries, from, at) && Quotes(entries, at, Excerpts(entries[from..]))
    decreases |entries| - from
  {
    hide *;
    if from == |entries| {
      at := [];
      NoneLeft(entries);
    } else {
      var rest := ExcerptsAt(entries, from + 1);
      var here := Capped(entries[from], 2100);
      at := if here == [] then rest else [from] + rest;
      OneMorePosition(entries, from, rest, at);
      OneMoreExcerpt(entries, from);
      var texts := Excerpts(entries[from + 1..]);
      if here == [] {
        assert [] + texts == texts;
      } else {
        OneMoreQuote(entries, from, rest, texts);
      }
    }
  }

  lemma NoneLeft(entries: seq<Option<Text>>)
    ensures Positions(entries, |entries|, []) && Quotes(entries, [], Excerpts(entries[|entries|..]))
  {
    hide Capped;
  }

  lemma OneMoreQuote(entries: seq<Option<Text>>, from: nat, rest: seq<nat>, texts: seq<Text>)
    requires from < |entries| && Quotes(entries, rest, texts)
    ensures Quotes(entries, [from] + rest, [Capped(entries[from], 2100)] + texts)
  {
    hide Capped;
  }

  lemma OneMoreExcerpt(entries: seq<Option<Text>>, from: nat)
    requires from < |entries|
    ensures var here := Capped(entries[from], 2100);
      Excerpts(entries[from..]) == (if here == [] then [] else [here]) + Excerpts(entries[from + 1..])
  {
    hide Capped;
    assert entries[from..][1..] == entries[from + 1..] && entries[from..][0] == entries[from];
  }

  // The speakers

  /** Which entries of a transcript are turns, and the line each is given: an assistant's is never the developer's. */
  lemma EntryLine(entry: Transcript.Entry)
    ensures Transcript.ChatTurn(entry).Some? <==>
      entry.Fields? && Capped(entry.text, 2000) != [] && (entry.role == Some(Lit("assistant")) || entry.role == Some(Lit("user")))
    ensures Transcript.ChatTurn(entry).Some? ==>
      TurnLine(Transcript.ChatTurn(entry).value)
        == (if entry.role == Some(Lit("assistant")) then Lit("Assistant: ") else Lit("Developer: ")) + Capped(entry.text, 2000)
  {
    Labels();
    hide Lit, Capped;
  }

  lemma Labels()
    ensures Lit("Assistant") + Lit(": ") == Lit("Assistant: ") && Lit("Developer") + Lit(": ") == Lit("Developer: ")
    ensures Lit("assistant") != Lit("user")
  {
    assert |Lit("assistant")| == 9 && |Lit("user")| == 4;
  }
}
