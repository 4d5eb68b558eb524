/** `fitToBudget` of shared/ai-chat.ts: a tool result cut to the observation budget by dropping list entries. */
module FitToBudget {
  import opened JsText
  import Json
  import opened Prompt

  type Members = seq<(Text, Json.Json)>

  /** A list of the result: `kept` of its items are still shown. */
  datatype List = List(name: Text, items: seq<Json.Json>, kept: nat)

  function Lists(fields: Members): seq<List> {
    if fields == [] then []
    else (if fields[0].1.Arr? then [List(fields[0].0, fields[0].1.items, |fields[0].1.items|)] else []) + Lists(fields[1..])
  }

  /** `lists.find`: the list a field is, by name. */
  function Find(lists: seq<List>, name: Text): Option<List> {
    if lists == [] then None
    else if lists[0].name == name then Some(lists[0])
    else Find(lists[1..], name)
  }

  function Shaped(fields: Members, lists: seq<List>): Members {
    seq(|fields|, i requires 0 <= i < |fields| =>
      match Find(lists, fields[i].0)
      case None => fields[i]
      case Some(list) => (fields[i].0, Json.Arr(Take(list.items, list.kept))))
  }

  function Lost(list: List): nat {
    if list.kept < |list.items| then |list.items| - list.kept else 0
  }

  function Note(list: List, several: bool): Text {
    Digits(Lost(list)) + Lit(" more") + if several then [SPACE] + list.name else []
  }

  function Notes(lists: seq<List>, several: bool): seq<Text> {
    if lists == [] then []
    else (if Lost(lists[0]) > 0 then [Note(lists[0], several)] else []) + Notes(lists[1..], several)
  }

  /** What follows the JSON: nothing, or what the lists lost. */
  function Omitted(lists: seq<List>): Text {
    var notes := Notes(lists, |lists| > 1);
    if notes == [] then [] else Lit(" (") + Join(notes, Lit(", ")) + Lit(" omitted)")
  }

  const ITEMS: Text := Lit("items")

  /** `render`. */
  function Render(fields: Members, bare: bool, lists: seq<List>): Text {
    var shaped := Shaped(fields, lists);
    var items := Json.Get(shaped, ITEMS);
    var text := if !bare then Json.Print(Json.Obj(shaped)) else if items.Some? then Json.Print(items.value) else [];
    text + Omitted(lists)
  }

  // Which list shrinks

  /** `reduce`: the first of the lists with the most kept entries. */
  method Longest(lists: seq<List>) returns (best: nat)
    requires lists != []
    ensures best == LongestIndex(lists)
  {
    best := 0;
    for i := 1 to |lists|
      invariant best < i
      invariant forall j | 0 <= j < i :: lists[j].kept <= lists[best].kept
      invariant forall j | 0 <= j < best :: lists[j].kept < lists[best].kept
    {
      if lists[i].kept > lists[best].kept {
        best := i;
      }
    }
    LongestUnique(lists, best);
  }

  function LongestIndex(lists: seq<List>): (i: nat)
    requires lists != []
    ensures i < |lists|
    ensures forall j | 0 <= j < |lists| :: lists[j].kept <= lists[i].kept
    ensures forall j | 0 <= j < i :: lists[j].kept < lists[i].kept
  {
    if |lists| == 1 then 0
    else
      var last := |lists| - 1;
      var best := LongestIndex(lists[..last]);
      assert forall j | 0 <= j < last :: lists[..last][j].kept == lists[j].kept;
      if lists[last].kept > lists[best].kept then last else best
  }

  lemma LongestUnique(lists: seq<List>, best: nat)
    requires best < |lists|
    requires forall j | 0 <= j < |lists| :: lists[j].kept <= lists[best].kept
    requires forall j | 0 <= j < best :: lists[j].kept < lists[best].kept
    ensures best == LongestIndex(lists)
  {
    var i := LongestIndex(lists);
    assert lists[i].kept == lists[best].kept;
  }

  function Shrink(lists: seq<List>): (r: seq<List>)
    requires lists != [] && lists[LongestIndex(lists)].kept > 0
    ensures |r| == |lists|
  {
    var i := LongestIndex(lists);
    lists[i := lists[i].(kept := lists[i].kept - 1)]
  }

  function Total(lists: seq<List>): nat {
    if lists == [] then 0 else Total(lists[..|lists| - 1]) + lists[|lists| - 1].kept
  }

  /** The lists after `n` entries have been dropped, one at a time, from the longest. */
  function Dropped(lists: seq<List>, n: nat): (r: seq<List>)
    requires n <= Total(lists)
    ensures |r| == |lists| && Total(r) == Total(lists) - n
  {
    if n == 0 then lists
    else
      var before := Dropped(lists, n - 1);
      TotalPositive(before);
      TotalShrink(before);
      Shrink(before)
  }

  lemma {:induction false} TotalPositive(lists: seq<List>)
    ensures Total(lists) > 0 <==> lists != [] && lists[LongestIndex(lists)].kept > 0
  {
    if lists != [] {
      var last := |lists| - 1;
      if last > 0 {
        TotalPositive(lists[..last]);
        assert lists[..last][LongestIndex(lists[..last])] == lists[LongestIndex(lists[..last])];
      } else {
        assert Total(lists[..0]) == 0;
      }
    }
  }

  lemma {:induction false} TotalUpdate(lists: seq<List>, i: nat, kept: nat)
    requires i < |lists|
    ensures Total(lists[i := lists[i].(kept := kept)]) == Total(lists) - lists[i].kept + kept
  {
    var last := |lists| - 1;
    var updated := lists[i := lists[i].(kept := kept)];
    if i == last {
      assert updated[..last] == lists[..last];
    } else {
      TotalUpdate(lists[..last], i, kept);
      assert updated[..last] == lists[..last][i := lists[..last][i].(kept := kept)];
    }
  }

  lemma TotalShrink(lists: seq<List>)
    requires lists != [] && lists[LongestIndex(lists)].kept > 0
    ensures Shrink(lists) != [] && |Shrink(lists)| == |lists| && Total(Shrink(lists)) == Total(lists) - 1
  {
    hide LongestIndex;
    TotalUpdate(lists, LongestIndex(lists), lists[LongestIndex(lists)].kept - 1);
  }

  /** Water level: a list that lost entries is at most one below any other, and not below one before it. */
  ghost predicate Level(start: seq<List>, lists: seq<List>) {
    && |lists| == |start|
    && (forall i | 0 <= i < |lists| ::
         lists[i].name == start[i].name && lists[i].items == start[i].items && lists[i].kept <= start[i].kept)
    && forall i, j | 0 <= i < |lists| && 0 <= j < |lists| && lists[i].kept < start[i].kept ::
         lists[j].kept <= lists[i].kept + 1 && (j < i ==> lists[j].kept <= lists[i].kept)
  }

  lemma {:induction false} DroppedLevel(lists: seq<List>, n: nat)
    requires n <= Total(lists)
    ensures Level(lists, Dropped(lists, n))
  {
    hide Level, LongestIndex, Shrink;
    if n > 0 {
      DroppedLevel(lists, n - 1);
      TotalPositive(Dropped(lists, n - 1));
      ShrinkLevel(lists, Dropped(lists, n - 1));
    } else {
      LevelAtStart(lists);
    }
  }

  lemma LevelAtStart(lists: seq<List>)
    ensures Level(lists, lists)
  {}

  lemma ShrunkCases(fields: Members, bare: bool, lists: seq<List>, fallback: Text)
    requires lists != []
    ensures |Render(fields, bare, lists)| <= STATEMENT_CAP ==> Shrunk(fields, bare, lists, fallback) == Render(fields, bare, lists)
    ensures |Render(fields, bare, lists)| > STATEMENT_CAP && lists[LongestIndex(lists)].kept == 0 ==> Shrunk(fields, bare, lists, fallback) == fallback
    ensures |Render(fields, bare, lists)| > STATEMENT_CAP && lists[LongestIndex(lists)].kept > 0 ==>
      Shrunk(fields, bare, lists, fallback) == Shrunk(fields, bare, Shrink(lists), fallback)
  {
    hide Render, Shrink, LongestIndex;
  }

  lemma ShrinkLevel(start: seq<List>, lists: seq<List>)
    requires Level(start, lists) && lists != [] && lists[LongestIndex(lists)].kept > 0
    ensures Level(start, Shrink(lists))
  {
    var k := LongestIndex(lists);
    var after := Shrink(lists);
    forall i, j | 0 <= i < |after| && 0 <= j < |after| && after[i].kept < start[i].kept
      ensures after[j].kept <= after[i].kept + 1 && (j < i ==> after[j].kept <= after[i].kept)
    {
      assert lists[j].kept <= lists[k].kept;
      if i != k {
        assert lists[i].kept < start[i].kept;
      }
    }
  }

  /** What is shown of a list and what its note reports make up the list; a list shown whole has no note. */
  lemma {:induction false} NotesConserve(lists: seq<List>, several: bool)
    ensures forall i | 0 <= i < |lists| && Lost(lists[i]) > 0 :: Note(lists[i], several) in Notes(lists, several)
    ensures forall i | 0 <= i < |lists| :: Lost(lists[i]) + |Take(lists[i].items, lists[i].kept)| == |lists[i].items|
    ensures forall note | note in Notes(lists, several) :: exists i :: 0 <= i < |lists| && Lost(lists[i]) > 0 && note == Note(lists[i], several)
  {
    hide Note;
    if lists != [] {
      NotesConserve(lists[1..], several);
      forall note | note in Notes(lists, several)
        ensures exists i :: 0 <= i < |lists| && Lost(lists[i]) > 0 && note == Note(lists[i], several)
      {
        if note in Notes(lists[1..], several) {
          var i :| 0 <= i < |lists[1..]| && Lost(lists[1..][i]) > 0 && note == Note(lists[1..][i], several);
          assert lists[1..][i] == lists[i + 1];
        }
      }
      forall i | 0 <= i < |lists| && Lost(lists[i]) > 0 ensures Note(lists[i], several) in Notes(lists, several) {
        if i > 0 {
          assert lists[1..][i - 1] == lists[i];
        }
      }
    }
  }

  // What the text says, read back

  /** `shown` is the result with each of its lists cut to its first `kept` items, and the rest of it as it was. */
  ghost predicate CutTo(result: Json.Json, lists: seq<List>, shown: Json.Json) {
    match result
    case Arr(items) =>
      |lists| == 1 && lists[0].items == items && lists[0].kept <= |items| && shown == Json.Arr(items[..lists[0].kept])
    case Obj(fields) =>
      && shown.Obj? && |shown.members| == |fields|
      && (forall i | 0 <= i < |fields| :: shown.members[i].0 == fields[i].0)
      && (forall i | 0 <= i < |fields| && !fields[i].1.Arr? :: shown.members[i].1 == fields[i].1)
      && (forall i | 0 <= i < |fields| && fields[i].1.Arr? :: CutField(fields[i].0, fields[i].1.items, lists, shown.members[i].1))
      && forall k | 0 <= k < |lists| :: (lists[k].name, Json.Arr(lists[k].items)) in fields
    case _ => false
  }

  ghost predicate CutField(name: Text, items: seq<Json.Json>, lists: seq<List>, shown: Json.Json) {
    exists k :: 0 <= k < |lists| && lists[k].name == name && lists[k].items == items && lists[k].kept <= |items|
      && shown == Json.Arr(items[..lists[k].kept])
  }

  lemma {:induction false} ListsAreFields(fields: Members)
    ensures forall k | 0 <= k < |Lists(fields)| ::
      var list := Lists(fields)[k]; list.kept == |list.items| && (list.name, Json.Arr(list.items)) in fields
    ensures forall i | 0 <= i < |fields| && fields[i].1.Arr? ::
      List(fields[i].0, fields[i].1.items, |fields[i].1.items|) in Lists(fields)
  {
    if fields != [] {
      ListsAreFields(fields[1..]);
      forall i | 0 <= i < |fields| && fields[i].1.Arr?
        ensures List(fields[i].0, fields[i].1.items, |fields[i].1.items|) in Lists(fields)
      {
        if i > 0 {
          assert fields[1..][i - 1] == fields[i];
        }
      }
    }
  }

  lemma {:induction false} FindIs(lists: seq<List>, name: Text)
    ensures Find(lists, name).None? ==> forall k | 0 <= k < |lists| :: lists[k].name != name
    ensures Find(lists, name).Some? ==> Find(lists, name).value in lists && Find(lists, name).value.name == name
  {
    if lists != [] {
      FindIs(lists[1..], name);
      assert forall k | 1 <= k < |lists| :: lists[k] == lists[1..][k - 1];
    }
  }

  lemma OneField(fields: Members, i: nat, value: Json.Json)
    requires DistinctKeys(fields) && i < |fields| && (fields[i].0, value) in fields
    ensures fields[i].1 == value
  {
    var j :| 0 <= j < |fields| && fields[j] == (fields[i].0, value);
  }

  /** A field is given its own list. */
  lemma FieldFound(fields: Members, lists: seq<List>, i: nat)
    requires DistinctKeys(fields) && i < |fields| && Level(Lists(fields), lists)
    ensures !fields[i].1.Arr? ==> Find(lists, fields[i].0).None?
    ensures fields[i].1.Arr? ==>
      var found := Find(lists, fields[i].0);
      found.Some? && found.value in lists && found.value.name == fields[i].0 && found.value.items == fields[i].1.items
      && found.value.kept <= |found.value.items|
  {
    var name := fields[i].0;
    ListsAreFields(fields);
    FindIs(lists, name);
    LevelKeeps(fields, lists);
    hide Lists, Level, Find;
    if Find(lists, name).Some? {
      var list := Find(lists, name).value;
      OneField(fields, i, Json.Arr(list.items));
    } else if fields[i].1.Arr? {
      LevelHas(fields, lists, i);
    }
  }

  lemma LevelKeeps(fields: Members, lists: seq<List>)
    requires Level(Lists(fields), lists)
    ensures forall list | list in lists :: list.kept <= |list.items| && (list.name, Json.Arr(list.items)) in fields
  {
    ListsAreFields(fields);
    hide Lists;
    forall list | list in lists ensures list.kept <= |list.items| && (list.name, Json.Arr(list.items)) in fields {
      var k :| 0 <= k < |lists| && lists[k] == list;
    }
  }

  lemma LevelHas(fields: Members, lists: seq<List>, i: nat)
    requires Level(Lists(fields), lists) && i < |fields| && fields[i].1.Arr?
    ensures exists k :: 0 <= k < |lists| && lists[k].name == fields[i].0
  {
    ListsAreFields(fields);
    hide Lists;
    var list := List(fields[i].0, fields[i].1.items, |fields[i].1.items|);
    var k :| 0 <= k < |Lists(fields)| && Lists(fields)[k] == list;
    assert lists[k].name == fields[i].0;
  }

  lemma FieldShaped(fields: Members, lists: seq<List>, i: nat)
    requires DistinctKeys(fields) && i < |fields| && Level(Lists(fields), lists)
    ensures var shaped := Shaped(fields, lists);
      |shaped| == |fields| && shaped[i].0 == fields[i].0
      && (!fields[i].1.Arr? ==> shaped[i].1 == fields[i].1)
      && (fields[i].1.Arr? ==> CutField(fields[i].0, fields[i].1.items, lists, shaped[i].1))
  {
    FieldFound(fields, lists, i);
    hide Lists, Level, Find;
    if fields[i].1.Arr? {
      var list := Find(lists, fields[i].0).value;
      var k :| 0 <= k < |lists| && lists[k] == list;
      assert Take(list.items, list.kept) == list.items[..list.kept];
    }
  }

  lemma ObjectCut(fields: Members, lists: seq<List>)
    requires DistinctKeys(fields) && Level(Lists(fields), lists)
    ensures CutTo(Json.Obj(fields), lists, Json.Obj(Shaped(fields, lists)))
  {
    LevelKeeps(fields, lists);
    hide Shaped, Lists, Level, CutField;
    assert |Shaped(fields, lists)| == |fields| by {
      ShapedLength(fields, lists);
    }
    forall i | 0 <= i < |fields|
      ensures var shaped := Shaped(fields, lists);
        |shaped| == |fields| && shaped[i].0 == fields[i].0
        && (!fields[i].1.Arr? ==> shaped[i].1 == fields[i].1)
        && (fields[i].1.Arr? ==> CutField(fields[i].0, fields[i].1.items, lists, shaped[i].1))
    {
      FieldShaped(fields, lists, i);
    }
  }

  lemma ShapedLength(fields: Members, lists: seq<List>)
    ensures |Shaped(fields, lists)| == |fields|
  {}

  lemma BareCut(items: seq<Json.Json>, lists: seq<List>)
    requires Level(Lists([(ITEMS, Json.Arr(items))]), lists)
    ensures |lists| == 1 && lists[0].items == items && lists[0].kept <= |items|
    ensures Shaped([(ITEMS, Json.Arr(items))], lists) == [(ITEMS, Json.Arr(items[..lists[0].kept]))]
  {
    var fields := [(ITEMS, Json.Arr(items))];
    assert fields[1..] == [] && Lists([]) == [];
    assert Lists(fields) == [List(ITEMS, items, |items|)];
    hide Lists;
    var list := lists[0];
    assert Find(lists, ITEMS) == Some(list);
    assert Take(list.items, list.kept) == items[..list.kept];
    var shaped := Shaped(fields, lists);
    assert |shaped| == 1 && shaped[0] == (ITEMS, Json.Arr(items[..list.kept]));
  }

  lemma CutWellFormed(result: Json.Json, lists: seq<List>, shown: Json.Json)
    requires CutTo(result, lists, shown) && Json.WellFormed(result)
    ensures Json.WellFormed(shown)
  {
    if result.Obj? {
      forall i | 0 <= i < |shown.members| ensures Json.WellFormed(shown.members[i].1) {
        assert Json.WellFormed(result.members[i].1);
      }
    }
  }

  /** A text that is JSON, which reads back as the result cut, and what the cut lists lost. */
  ghost predicate ReadsAs(result: Json.Json, lists: seq<List>, text: Text) {
    exists shown ::
      CutTo(result, lists, shown) && Json.Parse(Json.Print(shown)) == Some(shown) && text == Json.Print(shown) + Omitted(lists)
  }

  /** Whatever was dropped, the text is the result with its lists cut, as JSON that reads back, and what they lost. */
  lemma RenderReads(result: Json.Json, lists: seq<List>)
    requires Json.WellFormed(result) && (result.Arr? || (result.Obj? && DistinctKeys(result.members)))
    requires Level(Lists(if result.Arr? then [(ITEMS, result)] else result.members), lists)
    ensures ReadsAs(result, lists, Render(if result.Arr? then [(ITEMS, result)] else result.members, result.Arr?, lists))
  {
    var shown: Json.Json;
    var fields := if result.Arr? then [(ITEMS, result)] else result.members;
    hide Json.Print, Json.Parse, Lists, Level, Lit, Omitted, Shaped;
    if result.Arr? {
      BareCut(result.items, lists);
      shown := Json.Arr(result.items[..lists[0].kept]);
    } else {
      ObjectCut(result.members, lists);
      shown := Json.Obj(Shaped(result.members, lists));
    }
    CutWellFormed(result, lists, shown);
    Json.ParsePrint(shown);
    hide CutTo, Render;
    assert CutTo(result, lists, shown);
    assert fields == if result.Arr? then [(ITEMS, result)] else result.members;
    RenderIs(fields, result.Arr?, lists, shown);
  }

  lemma RenderIs(fields: Members, bare: bool, lists: seq<List>, shown: Json.Json)
    requires if bare then Shaped(fields, lists) == [(ITEMS, shown)] else shown == Json.Obj(Shaped(fields, lists))
    ensures Render(fields, bare, lists) == Json.Print(shown) + Omitted(lists)
  {
    hide Json.Print, Shaped, Omitted, Lit;
    if bare {
      assert Json.Get([(ITEMS, shown)], ITEMS) == Some(shown);
    }
  }

  function Shrunk(fields: Members, bare: bool, lists: seq<List>, fallback: Text): Text
    requires lists != []
    decreases Total(lists)
  {
    if |Render(fields, bare, lists)| <= STATEMENT_CAP then Render(fields, bare, lists)
    else if lists[LongestIndex(lists)].kept == 0 then fallback
    else
      TotalShrink(lists);
      Shrunk(fields, bare, Shrink(lists), fallback)
  }

  /** The text a result comes to. */
  function Fitted(result: Option<Json.Json>): Text {
    var whole := if result.None? then [] else Json.Print(result.value);
    var cut := Capped(Some(whole), STATEMENT_CAP);
    if |whole| <= STATEMENT_CAP then whole
    else if !result.value.Arr? && !result.value.Obj? then cut
    else
      var fields := if result.value.Arr? then [(ITEMS, result.value)] else result.value.members;
      if Lists(fields) == [] then cut else Shrunk(fields, result.value.Arr?, Lists(fields), cut)
  }

  /** Still over the budget after `m` entries are dropped. */
  ghost predicate TooLong(fields: Members, bare: bool, start: seq<List>, m: nat)
    requires m <= Total(start)
  {
    |Render(fields, bare, Dropped(start, m))| > STATEMENT_CAP
  }

  /** `fitToBudget`; `None` is an undefined result. When lists are cut, `dropped` entries go, one at a time from
      the longest list, and no fewer would have done. */
  method FitToBudget(result: Option<Json.Json>) returns (text: Text, ghost dropped: nat)
    requires result.Some? && result.value.Obj? ==> DistinctKeys(result.value.members)
    ensures |text| <= STATEMENT_CAP && text == Fitted(result)
    ensures var whole := if result.None? then [] else Json.Print(result.value);
      if |whole| <= STATEMENT_CAP then text == whole
      else if !result.value.Arr? && !result.value.Obj? then text == Capped(Some(whole), STATEMENT_CAP)
      else
        var bare := result.value.Arr?;
        var fields := if bare then [(ITEMS, result.value)] else result.value.members;
        var lists := Lists(fields);
        && dropped <= Total(lists)
        && (forall m: nat | m < dropped :: TooLong(fields, bare, lists, m))
        && (lists == [] ==> text == Capped(Some(whole), STATEMENT_CAP))
        && (lists != [] ==>
             if |Render(fields, bare, Dropped(lists, dropped))| <= STATEMENT_CAP then
               text == Render(fields, bare, Dropped(lists, dropped))
               && (Json.WellFormed(result.value) ==> ReadsAs(result.value, Dropped(lists, dropped), text))
             else dropped == Total(lists) && text == Capped(Some(whole), STATEMENT_CAP))
  {
    dropped := 0;
    var whole := if result.None? then [] else Json.Print(result.value);
    if |whole| <= STATEMENT_CAP {
      return whole, 0;
    }
    CappedHarmless(Some(whole), STATEMENT_CAP);
    if !result.value.Arr? && !result.value.Obj? {
      return Capped(Some(whole), STATEMENT_CAP), 0;
    }
    var bare := result.value.Arr?;
    var fields := if bare then [(ITEMS, result.value)] else result.value.members;
    var lists := Lists(fields);
    ghost var start := lists;
    if lists == [] {
      return Capped(Some(whole), STATEMENT_CAP), 0;
    }
    hide Render, Capped, Lists, Harmless, Dropped, Shrunk, ReadsAs, Level;
    text, dropped := DropUntilFit(fields, bare, lists, Capped(Some(whole), STATEMENT_CAP));
    if Json.WellFormed(result.value) {
      DroppedLevel(lists, dropped);
      RenderReads(result.value, Dropped(lists, dropped));
    }
  }

  /** `dropped` entries are gone, none of the earlier states fit, and the outcome is still the start's. */
  ghost predicate Reached(fields: Members, bare: bool, start: seq<List>, lists: seq<List>, dropped: nat, fallback: Text) {
    && start != [] && lists != [] && dropped <= Total(start) && lists == Dropped(start, dropped)
    && Shrunk(fields, bare, lists, fallback) == Shrunk(fields, bare, start, fallback)
    && forall m: nat | m < dropped :: TooLong(fields, bare, start, m)
  }

  lemma ReachedNext(fields: Members, bare: bool, start: seq<List>, lists: seq<List>, dropped: nat, fallback: Text)
    requires Reached(fields, bare, start, lists, dropped, fallback)
    requires |Render(fields, bare, lists)| > STATEMENT_CAP && lists[LongestIndex(lists)].kept > 0
    ensures dropped < Total(start)
    ensures Reached(fields, bare, start, Shrink(lists), dropped + 1, fallback)
  {
    hide Render, LongestIndex, Shrunk, Shrink, Total;
    TotalPositive(lists);
    ShrunkCases(fields, bare, lists, fallback);
    assert TooLong(fields, bare, start, dropped);
  }

  lemma ReachedEnd(fields: Members, bare: bool, start: seq<List>, lists: seq<List>, dropped: nat, fallback: Text)
    requires Reached(fields, bare, start, lists, dropped, fallback)
    requires |Render(fields, bare, lists)| <= STATEMENT_CAP || lists[LongestIndex(lists)].kept == 0
    ensures var last := Render(fields, bare, lists);
      lists == Dropped(start, dropped)
      && if |last| <= STATEMENT_CAP then Shrunk(fields, bare, start, fallback) == last
         else dropped == Total(start) && Shrunk(fields, bare, start, fallback) == fallback
  {
    hide Render, LongestIndex, Shrunk, Shrink, TooLong;
    TotalPositive(lists);
    ShrunkCases(fields, bare, lists, fallback);
  }

  lemma ReachedFacts(fields: Members, bare: bool, start: seq<List>, lists: seq<List>, dropped: nat, fallback: Text)
    requires Reached(fields, bare, start, lists, dropped, fallback)
    ensures dropped <= Total(start) && forall m: nat | m < dropped :: TooLong(fields, bare, start, m)
  {}

  lemma ReachedStart(fields: Members, bare: bool, start: seq<List>, fallback: Text)
    requires start != []
    ensures Reached(fields, bare, start, start, 0, fallback)
  {}

  /** `longest.kept -= 1`. */
  lemma ShrinkIs(lists: seq<List>)
    requires lists != [] && lists[LongestIndex(lists)].kept > 0
    ensures var i := LongestIndex(lists); Shrink(lists) == lists[i := lists[i].(kept := lists[i].kept - 1)]
  {}

  /** Lines 728-743. */
  method DropUntilFit(fields: Members, bare: bool, start: seq<List>, fallback: Text) returns (text: Text, ghost dropped: nat)
    requires start != []
    ensures dropped <= Total(start) && text == Shrunk(fields, bare, start, fallback)
    ensures forall m: nat | m < dropped :: TooLong(fields, bare, start, m)
    ensures var last := Render(fields, bare, Dropped(start, dropped));
      if |last| <= STATEMENT_CAP then text == last else dropped == Total(start) && text == fallback
  {
    hide *;
    var lists := start;
    dropped := 0;
    ReachedStart(fields, bare, start, fallback);
    text := Render(fields, bare, lists);
    while |text| > STATEMENT_CAP
      invariant lists != [] && text == Render(fields, bare, lists) && dropped <= Total(start)
      invariant Reached(fields, bare, start, lists, dropped, fallback)
      decreases Total(start) - dropped
    {
      var longest := Longest(lists);
      if lists[longest].kept == 0 {
        ReachedEnd(fields, bare, start, lists, dropped, fallback);
        ReachedFacts(fields, bare, start, lists, dropped, fallback);
        return fallback, dropped;
      }
      ReachedNext(fields, bare, start, lists, dropped, fallback);
      ShrinkIs(lists);
      lists := lists[longest := lists[longest].(kept := lists[longest].kept - 1)];
      dropped := dropped + 1;
      text := Render(fields, bare, lists);
    }
    ReachedEnd(fields, bare, start, lists, dropped, fallback);
    ReachedFacts(fields, bare, start, lists, dropped, fallback);
  }
}
