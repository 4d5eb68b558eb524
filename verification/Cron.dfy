/** The cron validator (shared/cron-expression.ts) against the grammar of the dialect it admits. */
module Cron {
  import opened JsText

  const STAR: unit := 42
  const COMMA: unit := 44
  const DASH: unit := 45
  const SLASH: unit := 47

  /** A field's range and the names that stand for 1, 2, … in it. */
  datatype Spec = Spec(min: nat, max: nat, names: seq<Text>, namesOnly: bool)

  const MONTHS: seq<Text> := [
    Lit("jan"), Lit("feb"), Lit("mar"), Lit("apr"), Lit("may"), Lit("jun"),
    Lit("jul"), Lit("aug"), Lit("sep"), Lit("oct"), Lit("nov"), Lit("dec")]

  /** The platform's numbers: 1 is Sunday. */
  const DAYS: seq<Text> := [Lit("sun"), Lit("mon"), Lit("tue"), Lit("wed"), Lit("thu"), Lit("fri"), Lit("sat")]

  const FIELDS: seq<Spec> := [
    Spec(0, 59, [], false),
    Spec(0, 23, [], false),
    Spec(1, 31, [], false),
    Spec(1, 12, MONTHS, false),
    Spec(1, 7, DAYS, true)]

  // Tokens

  predicate Digit(c: unit) {
    48 <= c <= 57
  }

  /** `SMALL_INTEGER`. */
  predicate SmallInteger(token: Text) {
    1 <= |token| <= 2 && forall i | 0 <= i < |token| :: Digit(token[i])
  }

  function NumberOf(token: Text): nat
    requires SmallInteger(token)
  {
    if |token| == 1 then (token[0] - 48) as nat else 10 * (token[0] - 48) as nat + (token[1] - 48) as nat
  }

  /** `toLowerCase` as far as names go: no other character lowers to a letter one of them holds. */
  function Lower(token: Text): (t: Text)
    ensures |t| == |token|
    ensures forall i | 0 <= i < |t| :: t[i] == if 65 <= token[i] <= 90 then token[i] + 32 else token[i]
  {
    seq(|token|, i requires 0 <= i < |token| => if 65 <= token[i] <= 90 then token[i] + 32 else token[i])
  }

  /** The value a name stands for. */
  function Named(names: seq<Text>, token: Text): (value: Option<nat>)
    ensures value.Some? ==> 1 <= value.value <= |names| && names[value.value - 1] == token
    ensures value.None? ==> token !in names
  {
    if names == [] then None
    else
      var earlier := Named(names[..|names| - 1], token);
      if earlier.Some? then earlier else if names[|names| - 1] == token then Some(|names|) else None
  }

  /** `valueOf`. */
  function ValueOf(token: Text, spec: Spec): Option<nat> {
    var named := Named(spec.names, Lower(token));
    if named.Some? then named
    else if !spec.namesOnly && SmallInteger(token) then Some(NumberOf(token))
    else None
  }

  predicate InRange(value: Option<nat>, spec: Spec) {
    value.Some? && spec.min <= value.value <= spec.max
  }

  // The validator

  predicate ValidStep(step: Text, spec: Spec) {
    SmallInteger(step) && 1 <= NumberOf(step) <= spec.max
  }

  predicate ValidRange(range: Text, spec: Spec) {
    range == [STAR] ||
    var ends := Split(range, DASH);
    |ends| <= 2 && InRange(ValueOf(ends[0], spec), spec)
    && (|ends| == 2 ==>
      InRange(ValueOf(ends[1], spec), spec) && ValueOf(ends[1], spec).value >= ValueOf(ends[0], spec).value)
  }

  /** `validItem`. */
  predicate ValidItem(item: Text, spec: Spec) {
    var parts := Split(item, SLASH);
    |parts| <= 2 && parts[0] != [] && (|parts| == 2 ==> ValidStep(parts[1], spec)) && ValidRange(parts[0], spec)
  }

  /** How many characters come before the first white space. */
  function Word(s: Text): (n: nat)
    ensures n <= |s| && (forall i | 0 <= i < n :: !IsSpace(s[i])) && (n < |s| ==> IsSpace(s[n]))
  {
    if s == [] || IsSpace(s[0]) then 0 else 1 + Word(s[1..])
  }

  /** `split(/\s+/u)`. */
  function SplitSpace(s: Text): (parts: seq<Text>)
    ensures |parts| >= 1
    decreases |s|
  {
    var n := Word(s);
    if n == |s| then [s] else [s[..n]] + SplitSpace(TrimStart(s[n + 1..]))
  }

  predicate ValidField(field: Text, spec: Spec) {
    var items := Split(field, COMMA);
    forall i | 0 <= i < |items| :: ValidItem(items[i], spec)
  }

  /** `isCronExpression`. */
  predicate IsCronExpression(expression: Text) {
    var fields := SplitSpace(Trim(expression));
    |fields| == 5 && forall i | 0 <= i < 5 :: ValidField(fields[i], FIELDS[i])
  }

  /** Every name is three small letters. */
  predicate Lettered(names: seq<Text>) {
    forall k | 0 <= k < |names| :: |names[k]| == 3 && forall i | 0 <= i < 3 :: 97 <= names[k][i] <= 122
  }

  ghost predicate Distinct(names: seq<Text>) {
    forall i, j | 0 <= i < |names| && 0 <= j < |names| && names[i] == names[j] :: i == j
  }

  lemma MonthLetters()
    ensures Lettered(MONTHS) && |MONTHS| == 12 && Distinct(MONTHS)
  {
    MonthsSpelled();
    hide MONTHS, Lit;
    forall i, j | 0 <= i < |MONTHS| && 0 <= j < |MONTHS| && MONTHS[i] == MONTHS[j] ensures i == j {
      assert MONTHS[i][1] == MONTHS[j][1] && MONTHS[i][2] == MONTHS[j][2];
    }
  }

  lemma MonthsSpelled()
    ensures MONTHS == [
      [106, 97, 110], [102, 101, 98], [109, 97, 114], [97, 112, 114], [109, 97, 121], [106, 117, 110],
      [106, 117, 108], [97, 117, 103], [115, 101, 112], [111, 99, 116], [110, 111, 118], [100, 101, 99]]
  {
    assert Lit("jan") == [106, 97, 110];
    assert Lit("feb") == [102, 101, 98];
    assert Lit("mar") == [109, 97, 114];
    assert Lit("apr") == [97, 112, 114];
    assert Lit("may") == [109, 97, 121];
    assert Lit("jun") == [106, 117, 110];
    assert Lit("jul") == [106, 117, 108];
    assert Lit("aug") == [97, 117, 103];
    assert Lit("sep") == [115, 101, 112];
    assert Lit("oct") == [111, 99, 116];
    assert Lit("nov") == [110, 111, 118];
    assert Lit("dec") == [100, 101, 99];
  }

  lemma DayLetters()
    ensures Lettered(DAYS) && |DAYS| == 7 && Distinct(DAYS)
  {
    DaysSpelled();
    hide DAYS, Lit;
    forall i, j | 0 <= i < |DAYS| && 0 <= j < |DAYS| && DAYS[i] == DAYS[j] ensures i == j {
      assert DAYS[i][0] == DAYS[j][0] && DAYS[i][1] == DAYS[j][1];
    }
  }

  lemma DaysSpelled()
    ensures DAYS == [
      [115, 117, 110], [109, 111, 110], [116, 117, 101], [119, 101, 100], [116, 104, 117], [102, 114, 105], [115, 97, 116]]
  {
    assert Lit("sun") == [115, 117, 110];
    assert Lit("mon") == [109, 111, 110];
    assert Lit("tue") == [116, 117, 101];
    assert Lit("wed") == [119, 101, 100];
    assert Lit("thu") == [116, 104, 117];
    assert Lit("fri") == [102, 114, 105];
    assert Lit("sat") == [115, 97, 116];
  }

  lemma FieldLettered()
    ensures |FIELDS| == 5 && forall i | 0 <= i < 5 :: Lettered(FIELDS[i].names)
  {
    MonthLetters();
    DayLetters();
    hide MONTHS, DAYS, Lit, Lettered;
    assert Lettered([]) by { NoNames(); }
  }

  lemma NoNames()
    ensures Lettered([])
  {}

  // The grammar

  type figure = d: nat | d < 10

  /** A number as it is written: with one figure or with two. */
  datatype Number = Short(ones: figure) | Long(tens: figure, ones: figure)

  /** A value as it is written: a number, or a name with a capital or small letter at each place. */
  datatype Atom = Numeric(number: Number) | Name(value: nat, capitals: seq<bool>)

  datatype Range = Star | One(at: Atom) | Span(from: Atom, to: Atom)

  datatype Item = Item(range: Range, step: Option<Number>)

  /** A schedule as it is written: white space, five fields of items, white space between and after them. */
  datatype Schedule = Schedule(lead: Text, fields: seq<seq<Item>>, gaps: seq<Text>, trail: Text)

  function NumberValue(n: Number): nat {
    match n
    case Short(ones) => ones
    case Long(tens, ones) => 10 * tens + ones
  }

  function AtomValue(atom: Atom): nat {
    match atom
    case Numeric(number) => NumberValue(number)
    case Name(value, _) => value
  }

  /** In the field's range; a number where numbers may stand, or one of the field's names. */
  predicate WellFormedAtom(atom: Atom, spec: Spec) {
    && spec.min <= AtomValue(atom) <= spec.max
    && match atom
       case Numeric(_) => !spec.namesOnly
       case Name(value, capitals) => 1 <= value <= |spec.names| && |capitals| == |spec.names[value - 1]|
  }

  predicate WellFormedRange(range: Range, spec: Spec) {
    match range
    case Star => true
    case One(at) => WellFormedAtom(at, spec)
    case Span(from, to) => WellFormedAtom(from, spec) && WellFormedAtom(to, spec) && AtomValue(from) <= AtomValue(to)
  }

  predicate WellFormedItem(item: Item, spec: Spec) {
    WellFormedRange(item.range, spec) && (item.step.Some? ==> 1 <= NumberValue(item.step.value) <= spec.max)
  }

  predicate WellFormedField(field: seq<Item>, spec: Spec) {
    field != [] && forall i | 0 <= i < |field| :: WellFormedItem(field[i], spec)
  }

  predicate AllSpace(s: Text) {
    forall i | 0 <= i < |s| :: IsSpace(s[i])
  }

  predicate WellFormed(s: Schedule) {
    && |s.fields| == 5 && (forall i | 0 <= i < 5 :: WellFormedField(s.fields[i], FIELDS[i]))
    && |s.gaps| == 4 && (forall i | 0 <= i < 4 :: s.gaps[i] != [] && AllSpace(s.gaps[i]))
    && AllSpace(s.lead) && AllSpace(s.trail)
  }

  function Figure(d: figure): unit {
    48 + d as unit
  }

  function PrintNumber(n: Number): Text {
    match n
    case Short(ones) => [Figure(ones)]
    case Long(tens, ones) => [Figure(tens), Figure(ones)]
  }

  /** A name with the letters at `capitals` in upper case. */
  function Cased(name: Text, capitals: seq<bool>): (t: Text)
    requires |name| == |capitals| && forall i | 0 <= i < |name| :: 97 <= name[i] <= 122
    ensures |t| == |name| && forall i | 0 <= i < |t| :: t[i] == if capitals[i] then name[i] - 32 else name[i]
  {
    seq(|name|, i requires 0 <= i < |name| => if capitals[i] then name[i] - 32 else name[i])
  }

  function PrintAtom(atom: Atom, spec: Spec): Text
    requires Lettered(spec.names) && WellFormedAtom(atom, spec)
  {
    match atom
    case Numeric(number) => PrintNumber(number)
    case Name(value, capitals) => Cased(spec.names[value - 1], capitals)
  }

  function PrintRange(range: Range, spec: Spec): Text
    requires Lettered(spec.names) && WellFormedRange(range, spec)
  {
    match range
    case Star => [STAR]
    case One(at) => PrintAtom(at, spec)
    case Span(from, to) => PrintAtom(from, spec) + [DASH] + PrintAtom(to, spec)
  }

  function PrintItem(item: Item, spec: Spec): Text
    requires Lettered(spec.names) && WellFormedItem(item, spec)
  {
    match item.step
    case None => PrintRange(item.range, spec)
    case Some(step) => PrintRange(item.range, spec) + [SLASH] + PrintNumber(step)
  }

  function PrintItems(field: seq<Item>, spec: Spec): (texts: seq<Text>)
    requires Lettered(spec.names) && forall i | 0 <= i < |field| :: WellFormedItem(field[i], spec)
    ensures |texts| == |field| && forall i | 0 <= i < |field| :: texts[i] == PrintItem(field[i], spec)
  {
    seq(|field|, i requires 0 <= i < |field| => PrintItem(field[i], spec))
  }

  function PrintField(field: seq<Item>, spec: Spec): Text
    requires Lettered(spec.names) && WellFormedField(field, spec)
  {
    Join(PrintItems(field, spec), [COMMA])
  }

  function PrintFields(fields: seq<seq<Item>>): (texts: seq<Text>)
    requires |fields| == 5 && forall i | 0 <= i < 5 :: WellFormedField(fields[i], FIELDS[i])
    ensures |texts| == 5 && forall i | 0 <= i < 5 :: Lettered(FIELDS[i].names) && texts[i] == PrintField(fields[i], FIELDS[i])
  {
    FieldLettered();
    seq(5, i requires 0 <= i < 5 => PrintField(fields[i], FIELDS[i]))
  }

  /** Words with gaps between them. */
  function Weave(words: seq<Text>, gaps: seq<Text>): Text
    requires |words| == |gaps| + 1
  {
    if gaps == [] then words[0] else words[0] + gaps[0] + Weave(words[1..], gaps[1..])
  }

  function Print(s: Schedule): Text
    requires WellFormed(s)
  {
    s.lead + Weave(PrintFields(s.fields), s.gaps) + s.trail
  }

  // White space

  predicate SpaceFree(s: Text) {
    forall i | 0 <= i < |s| :: !IsSpace(s[i])
  }

  predicate IsWord(s: Text) {
    s != [] && SpaceFree(s)
  }

  lemma {:induction false} TrimStartDrops(a: Text, s: Text)
    requires AllSpace(a) && (s == [] || !IsSpace(s[0]))
    ensures TrimStart(a + s) == s
  {
    hide IsSpace;
    if a == [] {
      assert a + s == s;
    } else {
      assert (a + s)[1..] == a[1..] + s;
      TrimStartDrops(a[1..], s);
    }
  }

  lemma {:induction false} TrimEndDrops(s: Text, a: Text)
    requires AllSpace(a) && (s == [] || !IsSpace(s[|s| - 1]))
    ensures TrimEnd(s + a) == s
  {
    hide IsSpace;
    if a == [] {
      assert s + a == s;
    } else {
      var all := s + a;
      assert all[..|all| - 1] == s + a[..|a| - 1] && all[|all| - 1] == a[|a| - 1];
      TrimEndDrops(s, a[..|a| - 1]);
    }
  }

  lemma TrimBoth(a: Text, s: Text, b: Text)
    requires AllSpace(a) && AllSpace(b) && s != [] && !IsSpace(s[0]) && !IsSpace(s[|s| - 1])
    ensures Trim(a + s + b) == s
  {
    hide IsSpace;
    assert a + s + b == a + (s + b);
    TrimStartDrops(a, s + b);
    TrimEndDrops(s, b);
  }

  lemma WordEnds(w: Text, rest: Text)
    requires (forall i | 0 <= i < |w| :: !IsSpace(w[i])) && (rest == [] || IsSpace(rest[0]))
    ensures Word(w + rest) == |w|
  {
    hide IsSpace;
    var s := w + rest;
    assert forall i | 0 <= i < |w| :: s[i] == w[i];
    assert rest != [] ==> s[|w|] == rest[0];
  }

  /** Splitting at white space takes woven words apart again. */
  lemma {:induction false} SplitWeave(words: seq<Text>, gaps: seq<Text>)
    requires |words| == |gaps| + 1 && (forall i | 0 <= i < |words| :: IsWord(words[i]))
    requires forall i | 0 <= i < |gaps| :: gaps[i] != [] && AllSpace(gaps[i])
    ensures SplitSpace(Weave(words, gaps)) == words
    ensures var s := Weave(words, gaps); s != [] && !IsSpace(s[0]) && !IsSpace(s[|s| - 1])
    decreases |gaps|
  {
    hide IsSpace, TrimStart;
    var s := Weave(words, gaps);
    if gaps == [] {
      WordEnds(words[0], []);
      assert words[0] + [] == words[0];
    } else {
      var rest := Weave(words[1..], gaps[1..]);
      SplitWeave(words[1..], gaps[1..]);
      var n := |words[0]|;
      assert s == words[0] + (gaps[0] + rest);
      WordEnds(words[0], gaps[0] + rest);
      assert s[n + 1..] == gaps[0][1..] + rest;
      TrimStartDrops(gaps[0][1..], rest);
      assert s[|s| - 1] == rest[|rest| - 1] && s[0] == words[0][0];
    }
  }

  /** And what it takes apart was woven. */
  lemma {:induction false} Unweave(s: Text) returns (gaps: seq<Text>)
    ensures |SplitSpace(s)| == |gaps| + 1 && Weave(SplitSpace(s), gaps) == s
    ensures forall i | 0 <= i < |gaps| :: gaps[i] != [] && AllSpace(gaps[i])
    decreases |s|
  {
    hide IsSpace, TrimStart;
    hide AllSpace, Word;
    var n := Word(s);
    if n == |s| {
      gaps := [];
    } else {
      var rest := TrimStart(s[n + 1..]);
      var gap := GapAt(s, n);
      var more := Unweave(rest);
      gaps := [gap] + more;
      var words := SplitSpace(s);
      assert words == [s[..n]] + SplitSpace(rest);
      hide SplitSpace;
      assert words[1..] == SplitSpace(rest) && gaps[1..] == more;
    }
  }

  lemma GapAt(s: Text, n: nat) returns (gap: Text)
    requires n < |s| && IsSpace(s[n])
    ensures gap != [] && AllSpace(gap) && s == s[..n] + gap + TrimStart(s[n + 1..])
  {
    hide IsSpace, TrimStart;
    var tail := s[n + 1..];
    TrimStartFacts(tail);
    var k := |tail| - |TrimStart(tail)|;
    gap := [s[n]] + tail[..k];
  }

  // Separators

  predicate Separator(c: unit) {
    c == STAR || c == COMMA || c == DASH || c == SLASH || IsSpace(c)
  }

  lemma FieldFacts(i: nat)
    requires i < 5
    ensures |FIELDS| == 5 && Lettered(FIELDS[i].names) && Distinct(FIELDS[i].names)
    ensures FIELDS[i].min <= FIELDS[i].max && 1 <= FIELDS[i].max && |FIELDS[i].names| <= FIELDS[i].max <= 99
  {
    FieldLettered();
    MonthLetters();
    DayLetters();
    hide MONTHS, DAYS, Lit;
    assert |FIELDS[0].names| == 0 && |FIELDS[1].names| == 0 && |FIELDS[2].names| == 0;
    assert FIELDS[3].names == MONTHS && FIELDS[4].names == DAYS;
  }

  lemma NumberPlain(n: Number)
    ensures var t := PrintNumber(n);
      t != [] && (forall i | 0 <= i < |t| :: !Separator(t[i])) && SmallInteger(t) && NumberOf(t) == NumberValue(n)
  {}

  lemma NumberRead(t: Text) returns (n: Number)
    requires SmallInteger(t)
    ensures PrintNumber(n) == t && NumberValue(n) == NumberOf(t)
  {
    n := if |t| == 1 then Short((t[0] - 48) as nat) else Long((t[0] - 48) as nat, (t[1] - 48) as nat);
  }

  /** A printed number is no name. */
  lemma NumberNotNamed(n: Number, names: seq<Text>)
    requires Lettered(names)
    ensures Named(names, Lower(PrintNumber(n))).None?
  {
    NumberPlain(n);
    if Named(names, Lower(PrintNumber(n))).Some? {
      NamedLength(names, Lower(PrintNumber(n)));
    }
  }

  lemma NamedLength(names: seq<Text>, token: Text)
    requires Lettered(names) && Named(names, token).Some?
    ensures |token| == 3
  {}

  /** A name, whatever its case, stands for its own value. */
  lemma NameFound(names: seq<Text>, value: nat, capitals: seq<bool>)
    requires Lettered(names) && Distinct(names) && 1 <= value <= |names| && |capitals| == |names[value - 1]|
    ensures var t := Cased(names[value - 1], capitals); Lower(t) == names[value - 1] && Named(names, Lower(t)) == Some(value)
  {
    var name := names[value - 1];
    var t := Cased(name, capitals);
    assert Lower(t) == name;
    assert name in names;
  }

  /** The validator reads back the value of every printed atom, and an atom holds no separator. */
  lemma AtomPrinted(atom: Atom, spec: Spec)
    requires Lettered(spec.names) && Distinct(spec.names) && WellFormedAtom(atom, spec)
    ensures var t := PrintAtom(atom, spec);
      t != [] && (forall i | 0 <= i < |t| :: !Separator(t[i])) && ValueOf(t, spec) == Some(AtomValue(atom))
  {
    match atom
    case Numeric(number) =>
      NumberPlain(number);
      NumberNotNamed(number, spec.names);
      hide Named, Lower, PrintNumber, SmallInteger, NumberOf, NumberValue, Separator;
    case Name(value, capitals) =>
      NameFound(spec.names, value, capitals);
      NamePlain(spec.names, value, capitals);
      hide Named, Lower, Cased, Separator;
  }

  lemma NamePlain(names: seq<Text>, value: nat, capitals: seq<bool>)
    requires Lettered(names) && 1 <= value <= |names| && |capitals| == |names[value - 1]|
    ensures var t := Cased(names[value - 1], capitals); t != [] && forall i | 0 <= i < |t| :: !Separator(t[i])
  {}

  /** And every token it gives a value in the range to is an atom printed. */
  lemma AtomRead(token: Text, spec: Spec) returns (atom: Atom)
    requires Lettered(spec.names) && InRange(ValueOf(token, spec), spec)
    ensures WellFormedAtom(atom, spec) && PrintAtom(atom, spec) == token && AtomValue(atom) == ValueOf(token, spec).value
  {
    var named := Named(spec.names, Lower(token));
    if named.Some? {
      var name := spec.names[named.value - 1];
      assert |name| == 3 && Lower(token) == name;
      var capitals := seq(3, i requires 0 <= i < 3 => 65 <= token[i] <= 90);
      CaseRead(token, name, capitals);
      hide Named, Lower, Cased;
      atom := Name(named.value, capitals);
    } else {
      hide Named, Lower;
      var number := NumberRead(token);
      atom := Numeric(number);
    }
  }

  lemma CaseRead(token: Text, name: Text, capitals: seq<bool>)
    requires Lower(token) == name && |capitals| == |name| == |token| && forall i | 0 <= i < |name| :: 97 <= name[i] <= 122
    requires forall i | 0 <= i < |name| :: capitals[i] == (65 <= token[i] <= 90)
    ensures Cased(name, capitals) == token
  {
    forall i | 0 <= i < |name| ensures Cased(name, capitals)[i] == token[i] {
      assert Lower(token)[i] == name[i];
    }
  }

  /** No unit of `s` is `c`. */
  lemma Absent(s: Text, c: unit)
    requires forall i | 0 <= i < |s| :: s[i] != c
    ensures c !in s
  {}

  lemma SplitOne(s: Text, sep: unit)
    requires sep !in s
    ensures Split(s, sep) == [s]
  {
    SplitJoin([s], sep);
  }

  lemma SplitTwo(a: Text, b: Text, sep: unit)
    requires sep !in a && sep !in b
    ensures Split(a + [sep] + b, sep) == [a, b]
  {
    SplitAt(a, sep, b);
    SplitOne(a, sep);
    SplitOne(b, sep);
  }

  // Printed forms are accepted

  lemma RangePrinted(range: Range, spec: Spec)
    requires Lettered(spec.names) && Distinct(spec.names) && WellFormedRange(range, spec)
    ensures var t := PrintRange(range, spec);
      t != [] && (forall i | 0 <= i < |t| :: t[i] != COMMA && t[i] != SLASH && !IsSpace(t[i])) && ValidRange(t, spec)
  {
    hide ValueOf, IsSpace, PrintAtom, AtomValue, Distinct, Lettered;
    DashStar();
    match range
    case Star =>
    case One(at) =>
      AtomPrinted(at, spec);
      Absent(PrintAtom(at, spec), DASH);
      SplitOne(PrintAtom(at, spec), DASH);
    case Span(from, to) =>
      AtomPrinted(from, spec);
      AtomPrinted(to, spec);
      Absent(PrintAtom(from, spec), DASH);
      Absent(PrintAtom(to, spec), DASH);
      SplitTwo(PrintAtom(from, spec), PrintAtom(to, spec), DASH);
  }

  lemma DashStar()
    ensures !IsSpace(STAR) && !IsSpace(DASH) && !IsSpace(SLASH) && !IsSpace(COMMA)
  {}

  lemma ItemPrinted(item: Item, spec: Spec)
    requires Lettered(spec.names) && Distinct(spec.names) && WellFormedItem(item, spec)
    ensures var t := PrintItem(item, spec);
      t != [] && (forall i | 0 <= i < |t| :: t[i] != COMMA && !IsSpace(t[i])) && ValidItem(t, spec)
  {
    RangePrinted(item.range, spec);
    DashStar();
    hide ValidRange, WellFormedRange, IsSpace, PrintRange, Distinct;
    var r := PrintRange(item.range, spec);
    Absent(r, SLASH);
    match item.step
    case None => SplitOne(r, SLASH);
    case Some(step) =>
      NumberPlain(step);
      hide PrintNumber, NumberOf, NumberValue;
      Absent(PrintNumber(step), SLASH);
      SplitTwo(r, PrintNumber(step), SLASH);
  }

  lemma {:induction false} JoinFree(parts: seq<Text>, sep: unit)
    requires !IsSpace(sep) && forall k | 0 <= k < |parts| :: SpaceFree(parts[k])
    ensures SpaceFree(Join(parts, [sep]))
  {
    hide IsSpace;
    if |parts| > 1 {
      JoinFree(parts[1..], sep);
      assert SpaceFree(parts[0]);
    }
  }

  lemma FieldPrinted(field: seq<Item>, spec: Spec)
    requires Lettered(spec.names) && Distinct(spec.names) && WellFormedField(field, spec)
    ensures IsWord(PrintField(field, spec)) && ValidField(PrintField(field, spec), spec)
  {
    var parts := PrintItems(field, spec);
    forall k | 0 <= k < |parts|
      ensures parts[k] != [] && COMMA !in parts[k] && SpaceFree(parts[k]) && ValidItem(parts[k], spec)
    {
      ItemPrinted(field[k], spec);
    }
    DashStar();
    hide IsSpace, ValidItem, PrintItem, WellFormedItem, Lettered, Distinct;
    SplitJoin(parts, COMMA);
    JoinFree(parts, COMMA);
    assert PrintField(field, spec) != [];
  }

  // Accepted texts are printed

  lemma RangeRead(t: Text, spec: Spec) returns (range: Range)
    requires Lettered(spec.names) && ValidRange(t, spec)
    ensures WellFormedRange(range, spec) && PrintRange(range, spec) == t
  {
    hide ValueOf, PrintAtom, WellFormedAtom, AtomValue, Lettered;
    if t == [STAR] {
      range := Star;
    } else {
      var ends := Split(t, DASH);
      JoinSplit(t, DASH);
      var from := AtomRead(ends[0], spec);
      if |ends| == 1 {
        range := One(from);
      } else {
        var to := AtomRead(ends[1], spec);
        range := Span(from, to);
        assert ends[1..] == [ends[1]];
      }
    }
  }

  lemma ItemRead(t: Text, spec: Spec) returns (item: Item)
    requires Lettered(spec.names) && ValidItem(t, spec)
    ensures WellFormedItem(item, spec) && PrintItem(item, spec) == t
  {
    hide ValidRange, WellFormedRange, PrintRange, Lettered, PrintNumber, NumberOf, NumberValue, SmallInteger;
    var parts := Split(t, SLASH);
    JoinSplit(t, SLASH);
    var range := RangeRead(parts[0], spec);
    if |parts| == 1 {
      item := Item(range, None);
    } else {
      var step := NumberRead(parts[1]);
      item := Item(range, Some(step));
      assert parts[1..] == [parts[1]];
    }
  }

  lemma {:induction false} ItemsRead(texts: seq<Text>, spec: Spec) returns (field: seq<Item>)
    requires Lettered(spec.names) && forall k | 0 <= k < |texts| :: ValidItem(texts[k], spec)
    ensures (forall k | 0 <= k < |field| :: WellFormedItem(field[k], spec)) && PrintItems(field, spec) == texts
  {
    hide ValidItem, WellFormedItem, PrintItem, Lettered;
    if texts == [] {
      field := [];
    } else {
      var item := ItemRead(texts[0], spec);
      var rest := ItemsRead(texts[1..], spec);
      field := [item] + rest;
      assert PrintItems(field, spec) == [texts[0]] + texts[1..];
    }
  }

  lemma FieldRead(t: Text, spec: Spec) returns (field: seq<Item>)
    requires Lettered(spec.names) && ValidField(t, spec)
    ensures WellFormedField(field, spec) && PrintField(field, spec) == t
  {
    hide ValidItem, WellFormedItem, PrintItem, Lettered;
    field := ItemsRead(Split(t, COMMA), spec);
    JoinSplit(t, COMMA);
  }

  // The validator is its grammar

  lemma PrintedAccepted(s: Schedule)
    requires WellFormed(s)
    ensures IsCronExpression(Print(s))
  {
    var words := PrintFields(s.fields);
    forall i | 0 <= i < 5 ensures IsWord(words[i]) && ValidField(words[i], FIELDS[i]) {
      FieldFacts(i);
      FieldPrinted(s.fields[i], FIELDS[i]);
    }
    hide IsSpace, ValidField, IsWord, PrintField, WellFormedField, FIELDS, Trim, SplitSpace, Lettered, Distinct;
    SplitWeave(words, s.gaps);
    TrimBoth(s.lead, Weave(words, s.gaps), s.trail);
  }

  lemma AcceptedPrinted(e: Text) returns (s: Schedule)
    requires IsCronExpression(e)
    ensures WellFormed(s) && Print(s) == e
  {
    hide IsSpace, ValidField, PrintField, WellFormedField, FIELDS, Trim, SplitSpace, TrimStart, TrimEnd, Weave, Lettered, Distinct;
    FieldLettered();
    var lo, hi := TrimCuts(e);
    var t := Trim(e);
    var words := SplitSpace(t);
    var gaps := Unweave(t);
    var f0 := FieldRead(words[0], FIELDS[0]);
    var f1 := FieldRead(words[1], FIELDS[1]);
    var f2 := FieldRead(words[2], FIELDS[2]);
    var f3 := FieldRead(words[3], FIELDS[3]);
    var f4 := FieldRead(words[4], FIELDS[4]);
    s := Schedule(e[..lo], [f0, f1, f2, f3, f4], gaps, e[hi..]);
    assert PrintFields(s.fields) == words;
    assert e == e[..lo] + t + e[hi..];
  }

  /** The validator accepts exactly the written forms of a schedule. */
  lemma ValidatorIsGrammar(e: Text)
    ensures IsCronExpression(e) <==> exists s :: WellFormed(s) && Print(s) == e
  {
    hide IsCronExpression, WellFormedField, Print;
    if IsCronExpression(e) {
      var s := AcceptedPrinted(e);
    }
    forall s | WellFormed(s) && Print(s) == e ensures IsCronExpression(e) {
      PrintedAccepted(s);
    }
  }

  // What a field stands for

  /** Every `step`-th value of a range; a single value with a step runs to the end of the field. */
  function Denotes(item: Item, spec: Spec): set<nat>
    requires WellFormedItem(item, spec)
  {
    var step := if item.step.Some? then NumberValue(item.step.value) else 1;
    var (from, to) := match item.range
      case Star => (spec.min, spec.max)
      case One(at) => (AtomValue(at), if item.step.Some? then spec.max else AtomValue(at))
      case Span(from, to) => (AtomValue(from), AtomValue(to));
    set v: nat | from <= v <= to && OnStep(from, step, v)
  }

  predicate OnStep(from: nat, step: nat, v: nat)
    requires step > 0
  {
    (v - from) % step == 0
  }

  function FieldDenotes(field: seq<Item>, spec: Spec): set<nat>
    requires WellFormedField(field, spec)
  {
    set i, v | 0 <= i < |field| && v in Denotes(field[i], spec) :: v
  }

  /** Each field of an accepted expression stands for at least one value, and for none outside its range. */
  lemma FieldsDenote(e: Text)
    requires IsCronExpression(e)
    ensures exists s :: WellFormed(s) && Print(s) == e && forall i | 0 <= i < 5 ::
      FieldDenotes(s.fields[i], FIELDS[i]) != {} && forall v | v in FieldDenotes(s.fields[i], FIELDS[i]) :: FIELDS[i].min <= v <= FIELDS[i].max
  {
    hide IsCronExpression, Print;
    var s := AcceptedPrinted(e);
    forall i | 0 <= i < 5
      ensures FieldDenotes(s.fields[i], FIELDS[i]) != {}
      ensures forall v | v in FieldDenotes(s.fields[i], FIELDS[i]) :: FIELDS[i].min <= v <= FIELDS[i].max
    {
      FieldFacts(i);
      FieldDenotesSome(s.fields[i], FIELDS[i]);
    }
  }

  lemma ItemDenotes(item: Item, spec: Spec) returns (v: nat)
    requires WellFormedItem(item, spec) && spec.min <= spec.max
    ensures v in Denotes(item, spec) && forall w | w in Denotes(item, spec) :: spec.min <= w <= spec.max
  {
    hide NumberValue, AtomValue;
    v := match item.range
      case Star => spec.min
      case One(at) => AtomValue(at)
      case Span(from, _) => AtomValue(from);
    var step := if item.step.Some? then NumberValue(item.step.value) else 1;
    assert OnStep(v, step, v);
  }

  lemma FieldDenotesSome(field: seq<Item>, spec: Spec)
    requires WellFormedField(field, spec) && spec.min <= spec.max
    ensures FieldDenotes(field, spec) != {}
    ensures forall v | v in FieldDenotes(field, spec) :: spec.min <= v <= spec.max
  {
    hide Denotes, WellFormedItem;
    forall i | 0 <= i < |field| ensures forall w | w in Denotes(field[i], spec) :: spec.min <= w <= spec.max {
      var v := ItemDenotes(field[i], spec);
    }
    var v := ItemDenotes(field[0], spec);
    assert v in FieldDenotes(field, spec);
  }
}
