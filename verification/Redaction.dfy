/** The budgeted redaction walk (shared/credential-redaction.ts) over any object graph, cycles included. How a key is
    classified and how a text is masked are left open: both are regular expressions. */
module Redaction {
  import opened JsText
  import KeyWords

  const MAX_STRING: nat := 4096
  const CAP_OVERSCAN: nat := 128
  const MAX_TOTAL: int := 16384
  const MAX_DEPTH: nat := 32
  const REDACTED: Text := Lit("<REDACTED>")
  const BUDGET_MARKER: Text := Lit("[redaction budget exceeded]")
  const TRUNCATED: Text := Lit("\U{2026}[truncated]")

  type Id = nat

  /** A JavaScript value; `Other` stands for numbers, bigints, symbols and functions. */
  datatype Value = Str(text: Text) | Bool(b: bool) | Null | Undefined | Other(n: int) | Ref(id: Id)

  /** What an object is to the walk: an array, an object walked by its entries, one returned as it is, or one whose
      `toJSON` yields something other than itself. */
  datatype Node = Arr(items: seq<Value>) | Obj(entries: seq<(Text, Value)>) | Opaque | Json(form: Value)

  /** The heap holds every object, and every object a `toJSON` makes on the way. */
  datatype Env = Env(heap: Id -> Node, classify: Text -> KeyWords.KeyClass, maskText: Text -> Text)

  datatype Out = Same(value: Value) | Shown(text: Text) | OutList(outs: seq<Out>) | OutFields(keys: seq<Text>, outs: seq<Out>)

  // What the walk decides before any text is looked at

  /** What becomes of a value. A `Cut` is an object given up on; `trail` are the objects it was met inside, outermost
      first. `Scan` is a text that will be examined. */
  datatype Plan =
    | Kept(value: Value)
    | Forced
    | Cut(id: Id, trail: seq<Id>)
    | Scan(text: Text)
    | List(id: Id, trail: seq<Id>, plans: seq<Plan>)
    | Fields(id: Id, trail: seq<Id>, keys: seq<Text>, plans: seq<Plan>)

  /** `maskValue`. */
  function Masked(value: Value): Plan {
    if value.Bool? || value.Null? || value.Undefined? then Kept(value) else Forced
  }

  /** `Array.isArray`. */
  predicate IsArray(env: Env, value: Value) {
    value.Ref? && env.heap(value.id).Arr?
  }

  function PlanOf(env: Env, value: Value, trail: seq<Id>, maskStrings: bool): Plan
    requires |trail| <= MAX_DEPTH
    decreases MAX_DEPTH - |trail|, 0
  {
    match value
    case Str(text) => if maskStrings then Forced else Scan(text)
    case Ref(id) =>
      if env.heap(id).Opaque? then Kept(value)
      else if id in trail || |trail| >= MAX_DEPTH then Cut(id, trail)
      else PlanInside(env, id, trail, maskStrings)
    case _ => Kept(value)
  }

  function PlanInside(env: Env, id: Id, trail: seq<Id>, maskStrings: bool): Plan
    requires |trail| < MAX_DEPTH && !env.heap(id).Opaque?
    decreases MAX_DEPTH - |trail| - 1, 1
  {
    var inner := trail + [id];
    match env.heap(id)
    case Json(form) => PlanOf(env, form, inner, maskStrings)
    case Arr(items) =>
      List(id, trail, seq(|items|, i requires 0 <= i < |items| => PlanOf(env, items[i], inner, maskStrings)))
    case Obj(entries) =>
      Fields(id, trail, seq(|entries|, i requires 0 <= i < |entries| => entries[i].0),
        seq(|entries|, i requires 0 <= i < |entries| =>
          if EntryMasked(env, entries[i].0, entries[i].1) then Masked(entries[i].1)
          else PlanOf(env, entries[i].1, inner, EntryForces(env, entries[i].0, entries[i].1))))
  }

  /** The entry's value is the credential itself. */
  predicate EntryMasked(env: Env, key: Text, item: Value) {
    env.classify(key).Secret? || (env.classify(key).ScalarSecret? && !item.Ref?)
  }

  /** Strings met under a count are credentials. */
  predicate EntryForces(env: Env, key: Text, item: Value) {
    env.classify(key).CountSecret? && (item.Str? || IsArray(env, item))
  }

  // Masking texts against the budget

  function Scanned(value: Text): (text: Text)
    ensures |text| == (if |value| <= MAX_STRING + CAP_OVERSCAN then |value| else MAX_STRING + CAP_OVERSCAN)
    ensures text <= value
  {
    if |value| <= MAX_STRING + CAP_OVERSCAN then value else value[..MAX_STRING + CAP_OVERSCAN]
  }

  function MaskedText(env: Env, value: Text): (text: Text)
    ensures |text| <= MAX_STRING + |TRUNCATED|
  {
    var masked := env.maskText(Scanned(value));
    if |masked| > MAX_STRING || |value| > |Scanned(value)| then
      (if |masked| > MAX_STRING then masked[..MAX_STRING] else masked) + TRUNCATED
    else masked
  }

  /** Nothing past the first 4,224 characters of a text is looked at or shown. */
  lemma NothingPastScan(env: Env, a: Text, b: Text)
    requires |a| > MAX_STRING + CAP_OVERSCAN && |b| > MAX_STRING + CAP_OVERSCAN
    requires a[..MAX_STRING + CAP_OVERSCAN] == b[..MAX_STRING + CAP_OVERSCAN]
    ensures MaskedText(env, a) == MaskedText(env, b)
    ensures TRUNCATED <= MaskedText(env, a)[|MaskedText(env, a)| - |TRUNCATED|..]
  {
    hide TRUNCATED;
    assert Scanned(a) == Scanned(b);
  }

  /** `maskString`: the text shown and what is left of the budget. */
  function MaskString(env: Env, value: Text, remaining: int): (Text, int) {
    if remaining <= 0 then (BUDGET_MARKER, remaining) else (MaskedText(env, value), remaining - |Scanned(value)|)
  }

  /** A plan carried out in visit order. */
  function Render(env: Env, plan: Plan, remaining: int): (Out, int) {
    match plan
    case Kept(value) => (Same(value), remaining)
    case Forced => (Shown(REDACTED), remaining)
    case Cut(_, _) => (Shown(REDACTED), remaining)
    case Scan(text) => (Shown(MaskString(env, text, remaining).0), MaskString(env, text, remaining).1)
    case List(_, _, plans) => (OutList(RenderAll(env, plans, remaining).0), RenderAll(env, plans, remaining).1)
    case Fields(_, _, keys, plans) => (OutFields(keys, RenderAll(env, plans, remaining).0), RenderAll(env, plans, remaining).1)
  }

  function RenderAll(env: Env, plans: seq<Plan>, remaining: int): (result: (seq<Out>, int))
    ensures |result.0| == |plans|
  {
    if plans == [] then ([], remaining)
    else
      var last := |plans| - 1;
      var (front, left) := RenderAll(env, plans[..last], remaining);
      var (out, after) := Render(env, plans[last], left);
      (front + [out], after)
  }

  lemma EntryCount(env: Env, id: Id, trail: seq<Id>, maskStrings: bool)
    requires |trail| < MAX_DEPTH && env.heap(id).Obj?
    ensures var plan := PlanInside(env, id, trail, maskStrings);
      plan.Fields? && |plan.keys| == |plan.plans| == |env.heap(id).entries|
  {
    hide PlanOf;
  }

  lemma EntryPlan(env: Env, id: Id, trail: seq<Id>, maskStrings: bool, i: nat)
    requires |trail| < MAX_DEPTH && env.heap(id).Obj? && i < |env.heap(id).entries|
    ensures var plan, entry := PlanInside(env, id, trail, maskStrings), env.heap(id).entries[i];
      && plan.Fields? && |plan.keys| == |plan.plans| == |env.heap(id).entries| && plan.keys[i] == entry.0
      && plan.plans[i] ==
        if EntryMasked(env, entry.0, entry.1) then Masked(entry.1)
        else PlanOf(env, entry.1, trail + [id], EntryForces(env, entry.0, entry.1))
  {
    hide PlanOf;
  }

  lemma MaskedRendered(env: Env, value: Value, remaining: int)
    ensures Render(env, Masked(value), remaining) ==
      (if value.Bool? || value.Null? || value.Undefined? then Same(value) else Shown(REDACTED), remaining)
  {}

  // The walk

  /** `walk` and `maskString`, with the set and the budget they share. */
  class Walker {
    const env: Env
    var seen: set<Id>
    var remaining: int

    constructor (env: Env)
      ensures this.env == env && seen == {} && remaining == MAX_TOTAL
    {
      this.env := env;
      seen := {};
      remaining := MAX_TOTAL;
    }

    method MaskText(value: Text) returns (text: Text)
      modifies this`remaining
      ensures (text, remaining) == MaskString(env, value, old(remaining))
    {
      if remaining <= 0 {
        return BUDGET_MARKER;
      }
      var scanned := Scanned(value);
      remaining := remaining - |scanned|;
      var masked := env.maskText(scanned);
      if |masked| > MAX_STRING || |value| > |scanned| {
        text := (if |masked| > MAX_STRING then masked[..MAX_STRING] else masked) + TRUNCATED;
      } else {
        text := masked;
      }
    }

    /** `seen` holds the objects the walk is inside of, `trail`, and is left as it was found. */
    method Walk(value: Value, depth: nat, maskStrings: bool, ghost trail: seq<Id>) returns (out: Out)
      requires |trail| == depth <= MAX_DEPTH && forall id :: id in seen <==> id in trail
      modifies this
      ensures seen == old(seen)
      ensures (out, remaining) == Render(env, PlanOf(env, value, trail, maskStrings), old(remaining))
      decreases MAX_DEPTH - depth, 0
    {
      hide RenderAll, MaskString;
      if value.Str? {
        if maskStrings {
          return Shown(REDACTED);
        }
        var text := MaskText(value.text);
        return Shown(text);
      }
      if !value.Ref? || env.heap(value.id).Opaque? {
        return Same(value);
      }
      if value.id in seen || depth >= MAX_DEPTH {
        return Shown(REDACTED);
      }
      seen := seen + {value.id};
      match env.heap(value.id) {
        case Json(form) =>
          out := Walk(form, depth + 1, maskStrings, trail + [value.id]);
        case Arr(items) =>
          var outs := WalkItems(value.id, items, depth + 1, maskStrings, trail);
          out := OutList(outs);
        case Obj(entries) =>
          var keys, outs := WalkEntries(value.id, entries, depth + 1, maskStrings, trail);
          out := OutFields(keys, outs);
      }
      seen := seen - {value.id};
      assert seen == old(seen);
    }

    method WalkItems(id: Id, items: seq<Value>, depth: nat, maskStrings: bool, ghost trail: seq<Id>) returns (outs: seq<Out>)
      requires |trail| + 1 == depth <= MAX_DEPTH && env.heap(id) == Arr(items)
      requires forall x :: x in seen <==> x in trail + [id]
      modifies this
      ensures seen == old(seen)
      ensures (outs, remaining) == RenderAll(env, PlanInside(env, id, trail, maskStrings).plans, old(remaining))
      decreases MAX_DEPTH - depth, 1
    {
      hide Render;
      outs := [];
      ghost var plans := PlanInside(env, id, trail, maskStrings).plans;
      for i := 0 to |items|
        invariant seen == old(seen)
        invariant (outs, remaining) == RenderAll(env, plans[..i], old(remaining))
      {
        var out := Walk(items[i], depth, maskStrings, trail + [id]);
        assert plans[..i + 1][..i] == plans[..i];
        outs := outs + [out];
      }
      assert plans[..|items|] == plans;
    }

    method WalkEntries(id: Id, entries: seq<(Text, Value)>, depth: nat, ghost maskStrings: bool, ghost trail: seq<Id>)
      returns (keys: seq<Text>, outs: seq<Out>)
      requires |trail| + 1 == depth <= MAX_DEPTH && env.heap(id) == Obj(entries)
      requires forall x :: x in seen <==> x in trail + [id]
      modifies this
      ensures seen == old(seen)
      ensures keys == PlanInside(env, id, trail, maskStrings).keys
      ensures (outs, remaining) == RenderAll(env, PlanInside(env, id, trail, maskStrings).plans, old(remaining))
      decreases MAX_DEPTH - depth, 1
    {
      hide Render, PlanInside, PlanOf, EntryMasked, EntryForces, Masked;
      EntryCount(env, id, trail, maskStrings);
      keys, outs := [], [];
      ghost var plan := PlanInside(env, id, trail, maskStrings);
      for i := 0 to |entries|
        invariant seen == old(seen)
        invariant keys == plan.keys[..i]
        invariant (outs, remaining) == RenderAll(env, plan.plans[..i], old(remaining))
      {
        var (key, item) := entries[i];
        EntryPlan(env, id, trail, maskStrings, i);
        var out: Out;
        if EntryMasked(env, key, item) {
          MaskedRendered(env, item, remaining);
          out := if item.Bool? || item.Null? || item.Undefined? then Same(item) else Shown(REDACTED);
        } else {
          out := Walk(item, depth, EntryForces(env, key, item), trail + [id]);
        }
        assert plan.plans[..i + 1][..i] == plan.plans[..i];
        outs := outs + [out];
        keys := keys + [key];
      }
      assert plan.plans[..|entries|] == plan.plans && plan.keys[..|entries|] == plan.keys;
    }
  }

  // The budget

  /** The texts a plan examines, in visit order. */
  function Scans(plan: Plan): seq<Text> {
    match plan
    case Scan(text) => [text]
    case List(_, _, plans) => ScansAll(plans)
    case Fields(_, _, _, plans) => ScansAll(plans)
    case _ => []
  }

  function ScansAll(plans: seq<Plan>): seq<Text> {
    if plans == [] then [] else ScansAll(plans[..|plans| - 1]) + Scans(plans[|plans| - 1])
  }

  function MaskAll(env: Env, texts: seq<Text>, remaining: int): (result: (seq<Text>, int))
    ensures |result.0| == |texts|
  {
    if texts == [] then ([], remaining)
    else
      var last := |texts| - 1;
      var (front, left) := MaskAll(env, texts[..last], remaining);
      var (text, after) := MaskString(env, texts[last], left);
      (front + [text], after)
  }

  /** The plan with the texts put where they were scanned. */
  function Filled(plan: Plan, texts: seq<Text>): Out
    requires |texts| == |Scans(plan)|
    decreases plan
  {
    match plan
    case Kept(value) => Same(value)
    case Forced => Shown(REDACTED)
    case Cut(_, _) => Shown(REDACTED)
    case Scan(_) => Shown(texts[0])
    case List(_, _, plans) => OutList(FilledAll(plans, texts))
    case Fields(_, _, keys, plans) => OutFields(keys, FilledAll(plans, texts))
  }

  function FilledAll(plans: seq<Plan>, texts: seq<Text>): (outs: seq<Out>)
    requires |texts| == |ScansAll(plans)|
    ensures |outs| == |plans|
    decreases plans
  {
    if plans == [] then []
    else
      var last := |plans| - 1;
      var k := |ScansAll(plans[..last])|;
      FilledAll(plans[..last], texts[..k]) + [Filled(plans[last], texts[k..])]
  }

  lemma {:induction false} MaskAllAppend(env: Env, a: seq<Text>, b: seq<Text>, remaining: int)
    ensures var (front, left) := MaskAll(env, a, remaining);
      var (back, after) := MaskAll(env, b, left);
      MaskAll(env, a + b, remaining) == (front + back, after)
    decreases |b|
  {
    hide MaskString;
    if b == [] {
      assert a + b == a && MaskAll(env, a, remaining).0 + [] == MaskAll(env, a, remaining).0;
    } else {
      var last := |b| - 1;
      MaskAllAppend(env, a, b[..last], remaining);
      var all := a + b;
      assert all[..|all| - 1] == a + b[..last] && all[|all| - 1] == b[last];
      var (front, left) := MaskAll(env, a, remaining);
      var (back, after) := MaskAll(env, b[..last], left);
      assert front + (back + [MaskString(env, b[last], after).0]) == front + back + [MaskString(env, b[last], after).0];
    }
  }

  /** Carrying out a plan is masking its texts one after another and putting them back. */
  lemma {:induction false} RenderFills(env: Env, plan: Plan, remaining: int)
    ensures var (texts, left) := MaskAll(env, Scans(plan), remaining);
      Render(env, plan, remaining) == (Filled(plan, texts), left)
    decreases plan
  {
    hide MaskString;
    match plan
    case Scan(text) => assert [text][..0] == [];
    case List(_, _, plans) => RenderAllFills(env, plans, remaining);
    case Fields(_, _, _, plans) => RenderAllFills(env, plans, remaining);
    case _ =>
  }

  lemma {:induction false} RenderAllFills(env: Env, plans: seq<Plan>, remaining: int)
    ensures var (texts, left) := MaskAll(env, ScansAll(plans), remaining);
      RenderAll(env, plans, remaining) == (FilledAll(plans, texts), left)
    decreases plans
  {
    hide MaskString, Render, MaskAll, Filled, Scans;
    if plans == [] {
      NoTexts(env, remaining);
    } else {
      var last := |plans| - 1;
      var a, b := ScansAll(plans[..last]), Scans(plans[last]);
      RenderAllFills(env, plans[..last], remaining);
      var (front, left) := MaskAll(env, a, remaining);
      RenderFills(env, plans[last], left);
      MaskAllAppend(env, a, b, remaining);
      var texts := MaskAll(env, a + b, remaining).0;
      assert texts[..|a|] == front && texts[|a|..] == MaskAll(env, b, left).0;
    }
  }

  lemma NoTexts(env: Env, remaining: int)
    ensures MaskAll(env, [], remaining) == ([], remaining)
  {}

  /** How many characters texts amount to, each counted as far as it would be scanned. */
  function Spent(texts: seq<Text>): nat {
    if texts == [] then 0 else Spent(texts[..|texts| - 1]) + |Scanned(texts[|texts| - 1])|
  }

  /** How many of them are scanned before the budget is gone. */
  function Examined(texts: seq<Text>, budget: int): nat {
    if texts == [] then 0
    else
      var front := texts[..|texts| - 1];
      Examined(front, budget) + if Spent(front) >= budget then 0 else |Scanned(texts[|texts| - 1])|
  }

  /** Every text before the budget is spent is masked, and every one after becomes the marker; what is examined stays
      within one scan of the budget. */
  lemma BudgetExact(env: Env, texts: seq<Text>, budget: int)
    ensures var (shown, left) := MaskAll(env, texts, budget);
      && (forall i | 0 <= i < |texts| :: shown[i] == if Spent(texts[..i]) >= budget then BUDGET_MARKER else MaskedText(env, texts[i]))
      && left == budget - Examined(texts, budget)
      && (budget > 0 ==> Examined(texts, budget) < budget + MAX_STRING + CAP_OVERSCAN)
  {
    hide MaskedText, BUDGET_MARKER, Scanned, Spent, Examined, MaskAll;
    BudgetLeft(env, texts, budget);
    forall i | 0 <= i < |texts|
      ensures MaskAll(env, texts, budget).0[i] == if Spent(texts[..i]) >= budget then BUDGET_MARKER else MaskedText(env, texts[i])
    {
      BudgetLeft(env, texts[..i], budget);
      ShownAt(env, texts, budget, i);
    }
  }

  lemma {:induction false} BudgetLeft(env: Env, texts: seq<Text>, budget: int)
    ensures var left := MaskAll(env, texts, budget).1;
      && left == budget - Examined(texts, budget)
      && (if Spent(texts) < budget then left == budget - Spent(texts) else left <= 0)
      && (budget > 0 ==> left > -(MAX_STRING + CAP_OVERSCAN) as int)
  {
    hide MaskedText, BUDGET_MARKER;
    if texts != [] {
      BudgetLeft(env, texts[..|texts| - 1], budget);
      hide Scanned;
    }
  }

  lemma {:induction false} ShownAt(env: Env, texts: seq<Text>, budget: int, i: nat)
    requires i < |texts|
    ensures MaskAll(env, texts, budget).0[i] == MaskString(env, texts[i], MaskAll(env, texts[..i], budget).1).0
  {
    hide MaskString;
    var last := |texts| - 1;
    if i < last {
      ShownAt(env, texts[..last], budget, i);
      assert texts[..last][..i] == texts[..i];
    }
  }

  /** `maskCredentials`. The result is the budget-free plan with each scanned text replaced: masked while fewer than
      16,384 characters were met before it, the marker from then on. At most 20,607 characters are examined. */
  method MaskCredentials(env: Env, value: Value) returns (out: Out)
    ensures var plan := PlanOf(env, value, [], false);
      out == Filled(plan, MaskAll(env, Scans(plan), MAX_TOTAL).0)
    ensures Shows(env, value, [], false, out)
  {
    hide Render, MaskAll, Filled, PlanOf, Shows;
    var walker := new Walker(env);
    out := walker.Walk(value, 0, false, []);
    ghost var plan := PlanOf(env, value, [], false);
    RenderFills(env, plan, MAX_TOTAL);
    MaskedEach(env, Scans(plan), MAX_TOTAL);
    FilledShows(env, value, [], false, MaskAll(env, Scans(plan), MAX_TOTAL).0);
  }

  // What comes out, told from the value alone

  /** A text comes out masked, or as the marker. */
  ghost predicate TextShown(env: Env, text: Text, shown: Text) {
    shown == MaskedText(env, text) || shown == BUDGET_MARKER
  }

  /** A credential's own value: nothing of a text, a number or an object is left. */
  ghost predicate Withheld(value: Value, out: Out) {
    out == if value.Bool? || value.Null? || value.Undefined? then Same(value) else Shown(REDACTED)
  }

  /** What may come out for a value met inside the objects of `trail`. With `forced`, the texts are credentials. */
  ghost predicate Shows(env: Env, value: Value, trail: seq<Id>, forced: bool, out: Out)
    requires |trail| <= MAX_DEPTH
    decreases MAX_DEPTH - |trail|, 0
  {
    match value
    case Str(text) => out.Shown? && if forced then out.text == REDACTED else TextShown(env, text, out.text)
    case Ref(id) =>
      if env.heap(id).Opaque? then out == Same(value)
      else if id in trail || |trail| == 32 then out == Shown(REDACTED)
      else
        (match env.heap(id)
         case Json(form) => Shows(env, form, trail + [id], forced, out)
         case Arr(items) =>
           out.OutList? && |out.outs| == |items| && forall i | 0 <= i < |items| :: Shows(env, items[i], trail + [id], forced, out.outs[i])
         case Obj(entries) =>
           && out.OutFields? && |out.keys| == |out.outs| == |entries|
           && forall i | 0 <= i < |entries| ::
             out.keys[i] == entries[i].0 && EntryShows(env, entries[i].0, entries[i].1, trail + [id], out.outs[i]))
    case _ => out == Same(value)
  }

  /** And what for a key's value: a credential is withheld; one only as a scalar is withheld unless it is an object; under
      a count a text is withheld, and so are the texts of an array; any other value is masked as it would be alone. */
  ghost predicate EntryShows(env: Env, key: Text, item: Value, trail: seq<Id>, out: Out)
    requires |trail| <= MAX_DEPTH
    decreases MAX_DEPTH - |trail|, 1
  {
    match env.classify(key)
    case Secret => Withheld(item, out)
    case ScalarSecret => if item.Ref? then Shows(env, item, trail, false, out) else Withheld(item, out)
    case CountSecret => if item.Str? then out == Shown(REDACTED) else Shows(env, item, trail, IsArray(env, item), out)
    case NotSecret => Shows(env, item, trail, false, out)
  }

  /** No text of the value is in it, down to the objects it lists. */
  ghost predicate Blind(out: Out)
    decreases out
  {
    match out
    case Same(value) => !value.Str?
    case Shown(text) => text == REDACTED
    case OutList(outs) => forall i | 0 <= i < |outs| :: Blind(outs[i])
    case OutFields(_, _) => true
  }

  /** Texts that are credentials are never shown, however deep the arrays they stand in. */
  lemma {:induction false} ForcedIsBlind(env: Env, value: Value, trail: seq<Id>, out: Out)
    requires |trail| <= MAX_DEPTH && Shows(env, value, trail, true, out)
    ensures Blind(out)
    decreases MAX_DEPTH - |trail|
  {
    if value.Ref? && !env.heap(value.id).Opaque? && value.id !in trail && |trail| < MAX_DEPTH {
      match env.heap(value.id)
      case Json(form) => ForcedIsBlind(env, form, trail + [value.id], out);
      case Arr(items) =>
        forall i | 0 <= i < |items| ensures Blind(out.outs[i]) {
          ForcedIsBlind(env, items[i], trail + [value.id], out.outs[i]);
        }
      case Obj(_) =>
    }
  }

  /** An object's `toJSON` is not looked into for that: under a count, a text it makes is masked as any other. */
  lemma CountFormShown(env: Env, key: Text, text: Text, out: Out)
    requires env.heap(0) == Obj([(key, Ref(1))]) && env.heap(1) == Json(Str(text)) && env.classify(key).CountSecret?
    ensures Shows(env, Ref(0), [], false, out) <==>
      out.OutFields? && out.keys == [key] && |out.outs| == 1 && out.outs[0].Shown? && TextShown(env, text, out.outs[0].text)
  {
    hide TextShown;
    var entries := env.heap(0).entries;
    assert entries[0] == (key, Ref(1)) && [] + [0] == [0];
    forall o ensures Shows(env, Ref(1), [0], false, o) <==> o.Shown? && TextShown(env, text, o.text) {
      assert Shows(env, Ref(1), [0], false, o) <==> Shows(env, Str(text), [0] + [1], false, o);
    }
  }

  /** The texts are masked, or the marker, each for its own. */
  ghost predicate EachShown(env: Env, texts: seq<Text>, shown: seq<Text>) {
    |shown| == |texts| && forall i | 0 <= i < |texts| :: TextShown(env, texts[i], shown[i])
  }

  lemma MaskedEach(env: Env, texts: seq<Text>, budget: int)
    ensures EachShown(env, texts, MaskAll(env, texts, budget).0)
  {
    BudgetExact(env, texts, budget);
    hide MaskAll, MaskedText, BUDGET_MARKER;
  }

  /** Where in the texts those of one plan are. */
  lemma {:induction false} FilledAt(env: Env, plans: seq<Plan>, texts: seq<Text>, i: nat) returns (piece: seq<Text>)
    requires i < |plans| && EachShown(env, ScansAll(plans), texts)
    ensures EachShown(env, Scans(plans[i]), piece) && FilledAll(plans, texts)[i] == Filled(plans[i], piece)
  {
    hide EachShown, Filled, Scans;
    var last := |plans| - 1;
    var front, back := ScansAll(plans[..last]), Scans(plans[last]);
    EachParts(env, front, back, texts);
    if i == last {
      piece := texts[|front|..];
    } else {
      piece := FilledAt(env, plans[..last], texts[..|front|], i);
    }
  }

  lemma EachParts(env: Env, a: seq<Text>, b: seq<Text>, shown: seq<Text>)
    requires EachShown(env, a + b, shown)
    ensures |shown| == |a| + |b| && EachShown(env, a, shown[..|a|]) && EachShown(env, b, shown[|a|..])
  {
    hide TextShown;
    assert forall i | 0 <= i < |a| :: (a + b)[i] == a[i];
    assert forall i | 0 <= i < |b| :: (a + b)[|a| + i] == b[i];
  }

  lemma {:induction false} FilledShows(env: Env, value: Value, trail: seq<Id>, forced: bool, texts: seq<Text>)
    requires |trail| <= MAX_DEPTH && EachShown(env, Scans(PlanOf(env, value, trail, forced)), texts)
    ensures Shows(env, value, trail, forced, Filled(PlanOf(env, value, trail, forced), texts))
    decreases MAX_DEPTH - |trail|, 0
  {
    if value.Ref? && !env.heap(value.id).Opaque? && value.id !in trail && |trail| < MAX_DEPTH {
      InsideShows(env, value.id, trail, forced, texts);
    }
  }

  lemma {:induction false} InsideShows(env: Env, id: Id, trail: seq<Id>, forced: bool, texts: seq<Text>)
    requires |trail| < MAX_DEPTH && !env.heap(id).Opaque? && id !in trail
    requires EachShown(env, Scans(PlanInside(env, id, trail, forced)), texts)
    ensures Shows(env, Ref(id), trail, forced, Filled(PlanInside(env, id, trail, forced), texts))
    decreases MAX_DEPTH - |trail| - 1, 2
  {
    hide PlanOf, Scans, TextShown, ScansAll;
    var plan, inner := PlanInside(env, id, trail, forced), trail + [id];
    match env.heap(id)
    case Json(form) => FilledShows(env, form, inner, forced, texts);
    case Arr(items) =>
      ListScans(plan);
      forall i | 0 <= i < |items| ensures Shows(env, items[i], inner, forced, Filled(plan, texts).outs[i]) {
        assert plan.plans[i] == PlanOf(env, items[i], inner, forced);
        var piece := FilledAt(env, plan.plans, texts, i);
        FilledShows(env, items[i], inner, forced, piece);
      }
    case Obj(entries) =>
      EntryCount(env, id, trail, forced);
      ListScans(plan);
      forall i | 0 <= i < |entries|
        ensures plan.keys[i] == entries[i].0 && EntryShows(env, entries[i].0, entries[i].1, inner, Filled(plan, texts).outs[i])
      {
        EntryPlan(env, id, trail, forced, i);
        var piece := FilledAt(env, plan.plans, texts, i);
        EntryFilled(env, entries[i].0, entries[i].1, inner, plan.plans[i], piece);
      }
  }

  lemma ListScans(plan: Plan)
    requires plan.List? || plan.Fields?
    ensures Scans(plan) == ScansAll(plan.plans)
  {}

  lemma EntryFilled(env: Env, key: Text, item: Value, trail: seq<Id>, plan: Plan, texts: seq<Text>)
    requires |trail| <= MAX_DEPTH && EachShown(env, Scans(plan), texts)
    requires plan == if EntryMasked(env, key, item) then Masked(item) else PlanOf(env, item, trail, EntryForces(env, key, item))
    ensures EntryShows(env, key, item, trail, Filled(plan, texts))
    decreases MAX_DEPTH - |trail|, 1
  {
    if !EntryMasked(env, key, item) {
      FilledShows(env, item, trail, EntryForces(env, key, item), texts);
    }
    hide PlanInside, FilledAll;
  }

  /** A text within both limits comes out as it is masked; a longer one as what its first 4,224 characters are masked to,
      cut at 4,096, and a mark that it was cut. */
  lemma TextMasked(env: Env, value: Text)
    ensures |value| <= 4224 && |env.maskText(value)| <= 4096 ==> MaskedText(env, value) == env.maskText(value)
    ensures |value| > 4224 || |env.maskText(value)| > 4096 ==>
      var masked := env.maskText(if |value| > 4224 then value[..4224] else value);
      MaskedText(env, value) == (if |masked| > 4096 then masked[..4096] else masked) + TRUNCATED
  {
    hide TRUNCATED;
  }

  lemma ExaminedBound(env: Env, texts: seq<Text>)
    ensures Examined(texts, MAX_TOTAL) <= 20_607
  {
    BudgetExact(env, texts, MAX_TOTAL);
  }

  // Cycles

  /** `b` stands directly inside `a`. */
  ghost predicate Inside(env: Env, a: Id, b: Id) {
    match env.heap(a)
    case Arr(items) => Ref(b) in items
    case Obj(entries) => exists i :: 0 <= i < |entries| && entries[i].1 == Ref(b)
    case Json(form) => form == Ref(b)
    case Opaque => false
  }

  /** `trail` leads from the value masked down to `id`, object by object. */
  ghost predicate Leads(env: Env, root: Value, trail: seq<Id>, id: Id) {
    var chain := trail + [id];
    root == Ref(chain[0]) && forall i | 0 <= i < |trail| :: Inside(env, chain[i], chain[i + 1])
  }

  /** Every object in the plan was met along a real chain of objects, is given up on exactly when it is on its own
      chain or the chain is 32 long, and is never given up on otherwise. */
  ghost predicate Justified(env: Env, root: Value, plan: Plan)
    decreases plan
  {
    match plan
    case Cut(id, trail) => Leads(env, root, trail, id) && (id in trail || |trail| >= MAX_DEPTH)
    case List(id, trail, plans) =>
      && Leads(env, root, trail, id) && id !in trail && |trail| < MAX_DEPTH
      && forall i | 0 <= i < |plans| :: Justified(env, root, plans[i])
    case Fields(id, trail, _, plans) =>
      && Leads(env, root, trail, id) && id !in trail && |trail| < MAX_DEPTH
      && forall i | 0 <= i < |plans| :: Justified(env, root, plans[i])
    case _ => true
  }

  /** Where a value stands: the root itself, or directly inside the last object of the trail. */
  ghost predicate Stands(env: Env, root: Value, trail: seq<Id>, value: Value) {
    value.Ref? ==> Leads(env, root, trail, value.id)
  }

  lemma StandsInside(env: Env, root: Value, trail: seq<Id>, id: Id, value: Value)
    requires Leads(env, root, trail, id) && (value.Ref? ==> Inside(env, id, value.id))
    ensures Stands(env, root, trail + [id], value)
  {
    if value.Ref? {
      var chain, longer := trail + [id], trail + [id] + [value.id];
      assert forall i | 0 <= i < |chain| :: longer[i] == chain[i];
    }
  }

  lemma {:induction false} CutsAreCycles(env: Env, root: Value, value: Value, trail: seq<Id>, maskStrings: bool)
    requires |trail| <= MAX_DEPTH && Stands(env, root, trail, value)
    ensures Justified(env, root, PlanOf(env, value, trail, maskStrings))
    decreases MAX_DEPTH - |trail|, 0
  {
    hide Leads, Inside;
    if value.Ref? && !env.heap(value.id).Opaque? && value.id !in trail && |trail| < MAX_DEPTH {
      InsideIsJustified(env, root, value.id, trail, maskStrings);
    }
  }

  lemma {:induction false} InsideIsJustified(env: Env, root: Value, id: Id, trail: seq<Id>, maskStrings: bool)
    requires |trail| < MAX_DEPTH && Leads(env, root, trail, id) && id !in trail && !env.heap(id).Opaque?
    ensures Justified(env, root, PlanInside(env, id, trail, maskStrings))
    decreases MAX_DEPTH - |trail| - 1, 1
  {
    hide Leads;
    var inner := trail + [id];
    match env.heap(id)
    case Json(form) =>
      StandsInside(env, root, trail, id, form);
      CutsAreCycles(env, root, form, inner, maskStrings);
    case Arr(items) =>
      forall i | 0 <= i < |items| ensures Justified(env, root, PlanOf(env, items[i], inner, maskStrings)) {
        assert items[i] in items;
        StandsInside(env, root, trail, id, items[i]);
        CutsAreCycles(env, root, items[i], inner, maskStrings);
      }
    case Obj(entries) =>
      forall i | 0 <= i < |entries| && !EntryMasked(env, entries[i].0, entries[i].1)
        ensures Justified(env, root, PlanOf(env, entries[i].1, inner, EntryForces(env, entries[i].0, entries[i].1)))
      {
        StandsInside(env, root, trail, id, entries[i].1);
        CutsAreCycles(env, root, entries[i].1, inner, EntryForces(env, entries[i].0, entries[i].1));
      }
  }

  // Credentials by key

  /** What may stand under a key that names a credential. */
  predicate Harmless(out: Out) {
    (out.Same? && (out.value.Bool? || out.value.Null? || out.value.Undefined?)) || out == Shown(REDACTED)
  }

  /** Nowhere in the result does a credential key hold anything else. */
  ghost predicate SecretsHidden(env: Env, out: Out)
    decreases out
  {
    match out
    case OutList(outs) => forall i | 0 <= i < |outs| :: SecretsHidden(env, outs[i])
    case OutFields(keys, outs) =>
      && |keys| == |outs|
      && (forall i | 0 <= i < |keys| && env.classify(keys[i]).Secret? :: Harmless(outs[i]))
      && forall i | 0 <= i < |outs| :: SecretsHidden(env, outs[i])
    case _ => true
  }

  ghost predicate PlanHides(env: Env, plan: Plan)
    decreases plan
  {
    match plan
    case List(_, _, plans) => forall i | 0 <= i < |plans| :: PlanHides(env, plans[i])
    case Fields(_, _, keys, plans) =>
      && |keys| == |plans|
      && (forall i | 0 <= i < |keys| && env.classify(keys[i]).Secret? :: HarmlessPlan(plans[i]))
      && forall i | 0 <= i < |plans| :: PlanHides(env, plans[i])
    case _ => true
  }

  predicate HarmlessPlan(plan: Plan) {
    plan.Forced? || (plan.Kept? && (plan.value.Bool? || plan.value.Null? || plan.value.Undefined?))
  }

  lemma {:induction false} PlanHidesSecrets(env: Env, value: Value, trail: seq<Id>, maskStrings: bool)
    requires |trail| <= MAX_DEPTH
    ensures PlanHides(env, PlanOf(env, value, trail, maskStrings))
    decreases MAX_DEPTH - |trail|, 0
  {
    if value.Ref? && !env.heap(value.id).Opaque? && value.id !in trail && |trail| < MAX_DEPTH {
      var inner := trail + [value.id];
      match env.heap(value.id)
      case Json(form) => PlanHidesSecrets(env, form, inner, maskStrings);
      case Arr(items) =>
        forall i | 0 <= i < |items| ensures PlanHides(env, PlanOf(env, items[i], inner, maskStrings)) {
          PlanHidesSecrets(env, items[i], inner, maskStrings);
        }
      case Obj(entries) =>
        forall i | 0 <= i < |entries| && !EntryMasked(env, entries[i].0, entries[i].1)
          ensures PlanHides(env, PlanOf(env, entries[i].1, inner, EntryForces(env, entries[i].0, entries[i].1)))
        {
          PlanHidesSecrets(env, entries[i].1, inner, EntryForces(env, entries[i].0, entries[i].1));
        }
    }
  }

  lemma {:induction false} FilledHides(env: Env, plan: Plan, texts: seq<Text>)
    requires PlanHides(env, plan) && |texts| == |Scans(plan)|
    ensures SecretsHidden(env, Filled(plan, texts))
    ensures HarmlessPlan(plan) ==> Harmless(Filled(plan, texts))
    decreases plan
  {
    match plan
    case List(_, _, plans) => FilledAllHides(env, plans, texts);
    case Fields(_, _, keys, plans) => FilledAllHides(env, plans, texts);
    case _ =>
  }

  lemma {:induction false} FilledAllHides(env: Env, plans: seq<Plan>, texts: seq<Text>)
    requires (forall i | 0 <= i < |plans| :: PlanHides(env, plans[i])) && |texts| == |ScansAll(plans)|
    ensures forall i | 0 <= i < |plans| ::
      SecretsHidden(env, FilledAll(plans, texts)[i]) && (HarmlessPlan(plans[i]) ==> Harmless(FilledAll(plans, texts)[i]))
    decreases plans
  {
    hide SecretsHidden, PlanHides, Harmless, HarmlessPlan, Filled, Scans;
    if plans != [] {
      var last := |plans| - 1;
      var k := |ScansAll(plans[..last])|;
      FilledAllHides(env, plans[..last], texts[..k]);
      FilledHides(env, plans[last], texts[k..]);
    }
  }

  /** Whatever the graph, under a key classified as a credential only booleans, null, undefined and the placeholder
      come out of masking it. */
  lemma SecretsNeverShown(env: Env, value: Value, texts: seq<Text>)
    requires |texts| == |Scans(PlanOf(env, value, [], false))|
    ensures SecretsHidden(env, Filled(PlanOf(env, value, [], false), texts))
  {
    PlanHidesSecrets(env, value, [], false);
    FilledHides(env, PlanOf(env, value, [], false), texts);
  }

  // Sharing is not a cycle

  /** The plan of a graph without cycles, made without remembering any object. */
  function Unfolded(env: Env, value: Value, trail: seq<Id>, maskStrings: bool): Plan
    requires |trail| <= MAX_DEPTH
    decreases MAX_DEPTH - |trail|
  {
    match value
    case Str(text) => if maskStrings then Forced else Scan(text)
    case Ref(id) =>
      if env.heap(id).Opaque? then Kept(value)
      else if |trail| >= MAX_DEPTH then Cut(id, trail)
      else
        var inner := trail + [id];
        (match env.heap(id)
         case Json(form) => Unfolded(env, form, inner, maskStrings)
         case Arr(items) =>
           List(id, trail, seq(|items|, i requires 0 <= i < |items| => Unfolded(env, items[i], inner, maskStrings)))
         case Obj(entries) =>
           Fields(id, trail, seq(|entries|, i requires 0 <= i < |entries| => entries[i].0),
             seq(|entries|, i requires 0 <= i < |entries| =>
               if EntryMasked(env, entries[i].0, entries[i].1) then Masked(entries[i].1)
               else Unfolded(env, entries[i].1, inner, EntryForces(env, entries[i].0, entries[i].1)))))
    case _ => Kept(value)
  }

  /** No object is inside itself, however deep. */
  ghost predicate Acyclic(env: Env, rank: Id -> nat) {
    forall a, b | Inside(env, a, b) :: rank(b) < rank(a)
  }

  /** In a graph without cycles an object met twice is walked twice: remembering the objects on the way changes nothing. */
  lemma {:induction false} SharedIsWalked(env: Env, rank: Id -> nat, value: Value, trail: seq<Id>, maskStrings: bool)
    requires |trail| <= MAX_DEPTH && Acyclic(env, rank)
    requires value.Ref? ==> forall x | x in trail :: rank(value.id) < rank(x)
    ensures PlanOf(env, value, trail, maskStrings) == Unfolded(env, value, trail, maskStrings)
    decreases MAX_DEPTH - |trail|
  {
    if value.Ref? && !env.heap(value.id).Opaque? && |trail| < MAX_DEPTH {
      var id := value.id;
      assert id !in trail;
      var inner := trail + [id];
      match env.heap(id)
      case Json(form) =>
        assert form.Ref? ==> Inside(env, id, form.id);
        SharedIsWalked(env, rank, form, inner, maskStrings);
      case Arr(items) =>
        forall i | 0 <= i < |items|
          ensures PlanOf(env, items[i], inner, maskStrings) == Unfolded(env, items[i], inner, maskStrings)
        {
          assert items[i].Ref? ==> items[i] in items && Inside(env, id, items[i].id);
          SharedIsWalked(env, rank, items[i], inner, maskStrings);
        }
      case Obj(entries) =>
        forall i | 0 <= i < |entries| && !EntryMasked(env, entries[i].0, entries[i].1)
          ensures PlanOf(env, entries[i].1, inner, EntryForces(env, entries[i].0, entries[i].1))
            == Unfolded(env, entries[i].1, inner, EntryForces(env, entries[i].0, entries[i].1))
        {
          var item := entries[i].1;
          assert item.Ref? ==> Inside(env, id, item.id);
          SharedIsWalked(env, rank, item, inner, EntryForces(env, entries[i].0, item));
        }
    }
  }
}
