/** JSON text: `JSON.stringify` on strings and JSON values, and `JSON.parse`. A number is
    its text; converting it to a double is not modelled. */
module Json {
  import JsNumber
  import opened JsText

  datatype Json =
    | Null
    | Bool(b: bool)
    | Num(text: Text)
    | Str(s: Text)
    | Arr(items: seq<Json>)
    | Obj(members: seq<(Text, Json)>)

  const TAB: unit := 9
  const CR: unit := 13
  const SPACE: unit := 32
  const QUOTE: unit := 34
  const COMMA: unit := 44
  const MINUS: unit := 45
  const COLON: unit := 58
  const LBRACKET: unit := 91
  const BACKSLASH: unit := 92
  const RBRACKET: unit := 93
  const LBRACE: unit := 123
  const RBRACE: unit := 125

  const NULL: Text := [110, 117, 108, 108]
  const TRUE: Text := [116, 114, 117, 101]
  const FALSE: Text := [102, 97, 108, 115, 101]

  // Numbers

  predicate IsDigit(c: unit) { 48 <= c <= 57 }

  predicate IsNumberUnit(c: unit) {
    IsDigit(c) || c == 43 || c == MINUS || c == 46 || c == 69 || c == 101
  }

  predicate AllDigits(t: Text) {
    t != [] && forall i | 0 <= i < |t| :: IsDigit(t[i])
  }

  function RunLength(t: Text): (n: nat)
    ensures n <= |t| && forall i | 0 <= i < n :: IsNumberUnit(t[i])
    ensures n < |t| ==> !IsNumberUnit(t[n])
  {
    if t == [] || !IsNumberUnit(t[0]) then 0 else 1 + RunLength(t[1..])
  }

  function DigitRun(t: Text): (n: nat)
    ensures n <= |t|
  {
    if t == [] || !IsDigit(t[0]) then 0 else 1 + DigitRun(t[1..])
  }

  /** The number grammar of RFC 8259 section 6. */
  predicate IsNumber(t: Text) {
    var unsigned := if t != [] && t[0] == MINUS then t[1..] else t;
    var whole := DigitRun(unsigned);
    whole > 0 && (unsigned[0] == 48 ==> whole == 1) && IsFraction(unsigned[whole..])
  }

  predicate IsFraction(t: Text) {
    if t != [] && t[0] == 46 then
      DigitRun(t[1..]) > 0 && IsExponent(t[1 + DigitRun(t[1..])..])
    else IsExponent(t)
  }

  predicate IsExponent(t: Text) {
    t == [] || ((t[0] == 69 || t[0] == 101)
    && AllDigits(if |t| > 1 && (t[1] == 43 || t[1] == MINUS) then t[2..] else t[1..]))
  }

  lemma NumberUnits(t: Text)
    requires IsNumber(t)
    ensures t != [] && forall i | 0 <= i < |t| :: IsNumberUnit(t[i])
  {
    hide IsFraction, IsNumberUnit, DigitRun;
    var unsigned := if t[0] == MINUS then t[1..] else t;
    var n := DigitRun(unsigned);
    DigitRunUnits(unsigned);
    var rest := unsigned[n..];
    assert t == t[..|t| - |unsigned|] + unsigned[..n] + rest;
    forall i | 0 <= i < |rest| ensures IsNumberUnit(rest[i]) {
      FractionUnit(rest, i);
    }
    DigitIsUnit();
  }

  lemma DigitIsUnit()
    ensures IsNumberUnit(MINUS) && forall c | IsDigit(c) :: IsNumberUnit(c)
  {}

  lemma {:induction false} DigitRunUnits(t: Text)
    ensures forall i | 0 <= i < DigitRun(t) :: IsDigit(t[i])
  {
    if t != [] && IsDigit(t[0]) {
      DigitRunUnits(t[1..]);
    }
  }

  lemma FractionUnit(t: Text, i: nat)
    requires IsFraction(t) && i < |t|
    ensures IsNumberUnit(t[i])
  {
    if t[0] == 46 && i > 0 {
      DigitRunUnits(t[1..]);
      var n := 1 + DigitRun(t[1..]);
      if i >= n {
        ExponentUnit(t[n..], i - n);
      } else {
        assert t[i] == t[1..][i - 1];
      }
    } else if t[0] != 46 {
      ExponentUnit(t, i);
    }
  }

  lemma ExponentUnit(t: Text, i: nat)
    requires IsExponent(t) && i < |t|
    ensures IsNumberUnit(t[i])
  {
    var digits := if |t| > 1 && (t[1] == 43 || t[1] == MINUS) then t[2..] else t[1..];
    if i >= |t| - |digits| {
      assert t[i] == digits[i - (|t| - |digits|)];
    }
  }

  // Strings

  function HexDigit(d: int): unit
    requires 0 <= d < 16
  {
    if d < 10 then (48 + d) as unit else (87 + d) as unit
  }

  function HexValue(c: unit): Option<int> {
    if IsDigit(c) then Some(c as int - 48)
    else if 97 <= c <= 102 then Some(c as int - 87)
    else if 65 <= c <= 70 then Some(c as int - 55)
    else None
  }

  /** `\uXXXX`, lower case. */
  function UnicodeEscape(c: unit): (e: Text)
    ensures |e| == 6
  {
    var n := c as int;
    [BACKSLASH, 117, HexDigit(n / 4096), HexDigit(n / 256 % 16), HexDigit(n / 16 % 16), HexDigit(n % 16)]
  }

  predicate IsHigh(c: unit) { 0xD800 <= c <= 0xDBFF }

  predicate IsLow(c: unit) { 0xDC00 <= c <= 0xDFFF }

  /** The letter of a two-character escape. */
  function ShortEscape(c: unit): Option<unit> {
    if c == 8 then Some(98) else if c == TAB then Some(116) else if c == LF then Some(110)
    else if c == 12 then Some(102) else if c == CR then Some(114)
    else if c == QUOTE then Some(QUOTE) else if c == BACKSLASH then Some(BACKSLASH) else None
  }

  function EscapeUnit(c: unit): (e: Text)
    ensures e != []
  {
    if ShortEscape(c).Some? then [BACKSLASH, ShortEscape(c).value]
    else if c < 0x20 || IsHigh(c) || IsLow(c) then UnicodeEscape(c)
    else [c]
  }

  /** The body of a quoted string: surrogate pairs stay, lone surrogates are escaped. */
  function Escape(s: Text): Text {
    if s == [] then []
    else if |s| > 1 && IsHigh(s[0]) && IsLow(s[1]) then s[..2] + Escape(s[2..])
    else EscapeUnit(s[0]) + Escape(s[1..])
  }

  /** `JSON.stringify` of a string. */
  function Quote(s: Text): Text {
    [QUOTE] + Escape(s) + [QUOTE]
  }

  function Unescape(letter: unit): Option<unit> {
    if letter == QUOTE || letter == BACKSLASH || letter == 47 then Some(letter)
    else if letter == 98 then Some(8) else if letter == 102 then Some(12) else if letter == 110 then Some(LF)
    else if letter == 114 then Some(CR) else if letter == 116 then Some(TAB) else None
  }

  function HexQuad(h3: unit, h2: unit, h1: unit, h0: unit): Option<unit> {
    match (HexValue(h3), HexValue(h2), HexValue(h1), HexValue(h0))
    case (Some(a), Some(b), Some(c), Some(d)) =>
      var n := 4096 * a + 256 * b + 16 * c + d;
      if 0 <= n < 0x1_0000 then Some(n as unit) else None
    case _ => None
  }

  /** What follows an opening quote: the string, and the text after the closing quote. */
  function ParseString(t: Text): (r: Option<(Text, Text)>)
    ensures r.Some? ==> |r.value.1| < |t|
  {
    if t == [] || t[0] < 0x20 then None
    else if t[0] == QUOTE then Some(([], t[1..]))
    else if t[0] != BACKSLASH then Prepend(t[0], ParseString(t[1..]))
    else if |t| < 2 then None
    else if t[1] != 117 then
      if Unescape(t[1]).None? then None else Prepend(Unescape(t[1]).value, ParseString(t[2..]))
    else if |t| < 6 || HexQuad(t[2], t[3], t[4], t[5]).None? then None
    else Prepend(HexQuad(t[2], t[3], t[4], t[5]).value, ParseString(t[6..]))
  }

  function Prepend(c: unit, r: Option<(Text, Text)>): Option<(Text, Text)> {
    if r.None? then None else Some(([c] + r.value.0, r.value.1))
  }

  lemma HexDigitValue(d: int)
    requires 0 <= d < 16
    ensures HexValue(HexDigit(d)) == Some(d)
  {}

  lemma HexParts(n: int, d3: int, d2: int, d1: int, d0: int)
    requires 0 <= n < 0x1_0000 && d3 == n / 4096 && d2 == n / 256 % 16 && d1 == n / 16 % 16 && d0 == n % 16
    ensures 4096 * d3 + 256 * d2 + 16 * d1 + d0 == n
  {
    var q1, r0 := n / 16, n % 16;
    var q2, r1 := q1 / 16, q1 % 16;
    var q3, r2 := q2 / 16, q2 % 16;
    JsNumber.ModUnique(n, 256, q2, r1 * 16 + r0);
    JsNumber.ModUnique(n, 4096, q3, r2 * 256 + r1 * 16 + r0);
  }

  lemma HexRoundTrip(c: unit)
    ensures var e := UnicodeEscape(c); HexQuad(e[2], e[3], e[4], e[5]) == Some(c)
  {
    hide HexDigit, HexValue;
    var n := c as int;
    HexParts(n, n / 4096, n / 256 % 16, n / 16 % 16, n % 16);
    HexDigitValue(n / 4096);
    HexDigitValue(n / 256 % 16);
    HexDigitValue(n / 16 % 16);
    HexDigitValue(n % 16);
  }

  lemma ParsePlainUnit(c: unit, rest: Text)
    requires c >= 0x20 && c != QUOTE && c != BACKSLASH
    ensures ParseString([c] + rest) == Prepend(c, ParseString(rest))
  {
    assert ([c] + rest)[1..] == rest;
  }

  lemma UnicodeEscapeStart(c: unit)
    ensures UnicodeEscape(c)[0] == BACKSLASH && UnicodeEscape(c)[1] == 117
  {}

  lemma ParseEscapedUnit(c: unit, rest: Text)
    ensures ParseString(EscapeUnit(c) + rest) == Prepend(c, ParseString(rest))
  {
    hide HexQuad, UnicodeEscape;
    var t := EscapeUnit(c) + rest;
    if ShortEscape(c).Some? {
      assert t[2..] == rest;
    } else if c < 0x20 || IsHigh(c) || IsLow(c) {
      UnicodeEscapeStart(c);
      HexRoundTrip(c);
      assert t[6..] == rest;
    } else {
      ParsePlainUnit(c, rest);
    }
  }

  lemma ParsePair(high: unit, low: unit, s: Text, tail: Text, rest: Text)
    requires IsHigh(high) && IsLow(low) && ParseString(tail) == Some((s, rest))
    ensures ParseString([high, low] + tail) == Some(([high, low] + s, rest))
  {
    hide ParseString;
    ParsePlainUnit(low, tail);
    ParsePlainUnit(high, [low] + tail);
    assert [high, low] + tail == [high] + ([low] + tail);
    assert [high, low] + s == [high] + ([low] + s);
  }

  /** A quoted string is self-delimiting. */
  lemma {:induction false} ParseEscaped(s: Text, rest: Text)
    ensures ParseString(Escape(s) + [QUOTE] + rest) == Some((s, rest))
  {
    hide EscapeUnit, ParseString;
    var t := Escape(s) + [QUOTE] + rest;
    if s == [] {
      ClosingQuote(rest);
      assert t == [QUOTE] + rest;
    } else if |s| > 1 && IsHigh(s[0]) && IsLow(s[1]) {
      var tail := Escape(s[2..]) + [QUOTE] + rest;
      ParseEscaped(s[2..], rest);
      ParsePair(s[0], s[1], s[2..], tail, rest);
      assert t == [s[0], s[1]] + tail;
      assert s == [s[0], s[1]] + s[2..];
    } else {
      var tail := Escape(s[1..]) + [QUOTE] + rest;
      ParseEscaped(s[1..], rest);
      ParseEscapedUnit(s[0], tail);
      assert t == EscapeUnit(s[0]) + tail;
      assert s == [s[0]] + s[1..];
    }
  }

  lemma ClosingQuote(rest: Text)
    ensures ParseString([QUOTE] + rest) == Some(([], rest))
  {
    assert ([QUOTE] + rest)[1..] == rest;
  }

  /** Two texts that open with a quoted string are equal only when the strings and the remainders are. */
  lemma QuoteSelfDelimiting(a: Text, x: Text, b: Text, y: Text)
    requires Quote(a) + x == Quote(b) + y
    ensures a == b && x == y
  {
    hide ParseString, Escape;
    ParseEscaped(a, x);
    ParseEscaped(b, y);
    assert Escape(a) + [QUOTE] + x == (Quote(a) + x)[1..];
    assert Escape(b) + [QUOTE] + y == (Quote(b) + y)[1..];
  }

  // Values

  /** `JSON.stringify` of a JSON value. */
  function Print(j: Json): Text
    decreases j, 1
  {
    match j
    case Null => NULL
    case Bool(b) => if b then TRUE else FALSE
    case Num(text) => text
    case Str(s) => Quote(s)
    case Arr(items) => [LBRACKET] + PrintItems(items) + [RBRACKET]
    case Obj(members) => [LBRACE] + PrintMembers(members) + [RBRACE]
  }

  function PrintItems(items: seq<Json>): Text
    decreases items, 0
  {
    if items == [] then []
    else if |items| == 1 then Print(items[0])
    else Print(items[0]) + [COMMA] + PrintItems(items[1..])
  }

  function PrintMember(member: (Text, Json)): Text
    decreases member, 2
  {
    Quote(member.0) + [COLON] + Print(member.1)
  }

  function PrintMembers(members: seq<(Text, Json)>): Text
    decreases members, 0
  {
    if members == [] then []
    else if |members| == 1 then PrintMember(members[0])
    else PrintMember(members[0]) + [COMMA] + PrintMembers(members[1..])
  }

  /** Every number is spelled as a JSON number. */
  predicate WellFormed(j: Json)
    decreases j
  {
    match j
    case Num(text) => IsNumber(text)
    case Arr(items) => forall i | 0 <= i < |items| :: WellFormed(items[i])
    case Obj(members) => forall i | 0 <= i < |members| :: WellFormed(members[i].1)
    case _ => true
  }

  predicate IsJsonSpace(c: unit) { c == TAB || c == LF || c == CR || c == SPACE }

  function SkipSpace(t: Text): (u: Text)
    ensures |u| <= |t|
  {
    if t == [] || !IsJsonSpace(t[0]) then t else SkipSpace(t[1..])
  }

  function ParseValue(text: Text): (r: Option<(Json, Text)>)
    ensures r.Some? ==> |r.value.1| < |text|
    decreases |text|, 0
  {
    var t := SkipSpace(text);
    if t == [] then None
    else if t[0] == QUOTE then
      match ParseString(t[1..])
      case None => None
      case Some((s, rest)) => Some((Str(s), rest))
    else if t[0] == LBRACKET then
      if Closes(t[1..], RBRACKET) then Some((Arr([]), SkipSpace(t[1..])[1..]))
      else
        match ParseItems(t[1..])
        case None => None
        case Some((items, rest)) => Some((Arr(items), rest))
    else if t[0] == LBRACE then
      if Closes(t[1..], RBRACE) then Some((Obj([]), SkipSpace(t[1..])[1..]))
      else
        match ParseMembers(t[1..])
        case None => None
        case Some((members, rest)) => Some((Obj(members), rest))
    else ParseScalar(t)
  }

  predicate Closes(t: Text, bracket: unit) {
    SkipSpace(t) != [] && SkipSpace(t)[0] == bracket
  }

  function ParseScalar(t: Text): (r: Option<(Json, Text)>)
    ensures r.Some? ==> |r.value.1| < |t|
  {
    if NULL <= t then Some((Null, t[4..]))
    else if TRUE <= t then Some((Bool(true), t[4..]))
    else if FALSE <= t then Some((Bool(false), t[5..]))
    else if IsNumber(t[..RunLength(t)]) && RunLength(t) > 0 then Some((Num(t[..RunLength(t)]), t[RunLength(t)..]))
    else None
  }

  function ParseItems(t: Text): (r: Option<(seq<Json>, Text)>)
    ensures r.Some? ==> |r.value.1| < |t|
    decreases |t|, 1
  {
    match ParseValue(t)
    case None => None
    case Some((item, rest)) =>
      var u := SkipSpace(rest);
      if u == [] then None
      else if u[0] == RBRACKET then Some(([item], u[1..]))
      else if u[0] != COMMA then None
      else
        match ParseItems(u[1..])
        case None => None
        case Some((items, after)) => Some(([item] + items, after))
  }

  function ParseMember(t: Text): (r: Option<((Text, Json), Text)>)
    ensures r.Some? ==> |r.value.1| < |t|
    decreases |t|, 1
  {
    var u := SkipSpace(t);
    if u == [] || u[0] != QUOTE then None
    else
      match ParseString(u[1..])
      case None => None
      case Some((key, afterKey)) =>
        var c := SkipSpace(afterKey);
        if c == [] || c[0] != COLON then None
        else
          match ParseValue(c[1..])
          case None => None
          case Some((value, rest)) => Some(((key, value), rest))
  }

  function ParseMembers(t: Text): (r: Option<(seq<(Text, Json)>, Text)>)
    ensures r.Some? ==> |r.value.1| < |t|
    decreases |t|, 2
  {
    match ParseMember(t)
    case None => None
    case Some((member, rest)) =>
      var u := SkipSpace(rest);
      if u == [] then None
      else if u[0] == RBRACE then Some(([member], u[1..]))
      else if u[0] != COMMA then None
      else
        match ParseMembers(u[1..])
        case None => None
        case Some((members, after)) => Some(([member] + members, after))
  }

  /** `JSON.parse`; `None` where it throws. A repeated key is kept in the list; `Get` reads the last, as an object does. */
  function Parse(t: Text): Option<Json> {
    match ParseValue(t)
    case None => None
    case Some((value, rest)) => if SkipSpace(rest) == [] then Some(value) else None
  }

  function Get(members: seq<(Text, Json)>, key: Text): Option<Json> {
    if members == [] then None
    else if members[|members| - 1].0 == key then Some(members[|members| - 1].1)
    else Get(members[..|members| - 1], key)
  }

  // Parsing undoes printing

  ghost predicate Delimited(rest: Text) {
    rest == [] || !IsNumberUnit(rest[0])
  }

  lemma PrintStart(j: Json)
    requires WellFormed(j)
    ensures Print(j) != [] && !IsJsonSpace(Print(j)[0]) && Print(j)[0] != RBRACKET
  {
    if j.Num? {
      NumberUnits(j.text);
    }
  }

  lemma {:induction false} RunLengthOf(n: Text, rest: Text)
    requires forall i | 0 <= i < |n| :: IsNumberUnit(n[i])
    requires Delimited(rest)
    ensures RunLength(n + rest) == |n|
  {
    if n == [] {
      assert n + rest == rest;
    } else {
      RunLengthOf(n[1..], rest);
      assert (n + rest)[1..] == n[1..] + rest;
    }
  }

  lemma ParseScalarPrinted(j: Json, rest: Text)
    requires WellFormed(j) && Delimited(rest)
    requires j.Null? || j.Bool? || j.Num?
    ensures ParseValue(Print(j) + rest) == Some((j, rest))
  {
    var t := Print(j) + rest;
    if j.Num? {
      NumberUnits(j.text);
      RunLengthOf(j.text, rest);
      assert t[..|j.text|] == j.text && t[|j.text|..] == rest;
      assert t[0] == j.text[0];
    } else {
      assert Print(j) <= t && t[|Print(j)|..] == rest;
      assert t[0] == Print(j)[0];
    }
  }

  // One step of the parser each, given what the steps inside it return.

  lemma StringStep(s: Text, rest: Text)
    ensures ParseValue(Quote(s) + rest) == Some((Str(s), rest))
  {
    hide ParseString, Escape;
    ParseEscaped(s, rest);
    assert (Quote(s) + rest)[1..] == Escape(s) + [QUOTE] + rest;
  }

  lemma ArrayStep(body: Text, items: seq<Json>, rest: Text)
    requires body != [] && !IsJsonSpace(body[0]) && body[0] != RBRACKET
    requires ParseItems(body + [RBRACKET] + rest) == Some((items, rest))
    ensures ParseValue([LBRACKET] + body + [RBRACKET] + rest) == Some((Arr(items), rest))
  {
    hide ParseItems, ParseMembers, ParseScalar, ParseString;
    var t := [LBRACKET] + body + [RBRACKET] + rest;
    assert t[1..] == body + [RBRACKET] + rest;
  }

  lemma ObjectStep(body: Text, members: seq<(Text, Json)>, rest: Text)
    requires body != [] && body[0] == QUOTE
    requires ParseMembers(body + [RBRACE] + rest) == Some((members, rest))
    ensures ParseValue([LBRACE] + body + [RBRACE] + rest) == Some((Obj(members), rest))
  {
    hide ParseItems, ParseMembers, ParseScalar, ParseString;
    var t := [LBRACE] + body + [RBRACE] + rest;
    assert t[1..] == body + [RBRACE] + rest;
  }

  lemma EmptyStep(rest: Text)
    ensures ParseValue([LBRACKET] + [] + [RBRACKET] + rest) == Some((Arr([]), rest))
    ensures ParseValue([LBRACE] + [] + [RBRACE] + rest) == Some((Obj([]), rest))
  {
    hide ParseItems, ParseMembers, ParseScalar, ParseString;
    var t, u := [LBRACKET] + [] + [RBRACKET] + rest, [LBRACE] + [] + [RBRACE] + rest;
    assert t[1..][1..] == rest && u[1..][1..] == rest;
  }

  lemma LastItemStep(t: Text, item: Json, rest: Text)
    requires ParseValue(t) == Some((item, [RBRACKET] + rest))
    ensures ParseItems(t) == Some(([item], rest))
  {
    hide ParseValue;
    assert ([RBRACKET] + rest)[1..] == rest;
  }

  lemma NextItemStep(t: Text, item: Json, tail: Text, items: seq<Json>, rest: Text)
    requires ParseValue(t) == Some((item, [COMMA] + tail))
    requires ParseItems(tail) == Some((items, rest))
    ensures ParseItems(t) == Some(([item] + items, rest))
  {
    hide ParseValue;
    assert ([COMMA] + tail)[1..] == tail;
  }

  lemma LastMemberStep(t: Text, member: (Text, Json), rest: Text)
    requires ParseMember(t) == Some((member, [RBRACE] + rest))
    ensures ParseMembers(t) == Some(([member], rest))
  {
    hide ParseMember;
    assert ([RBRACE] + rest)[1..] == rest;
  }

  lemma NextMemberStep(t: Text, member: (Text, Json), tail: Text, members: seq<(Text, Json)>, rest: Text)
    requires ParseMember(t) == Some((member, [COMMA] + tail))
    requires ParseMembers(tail) == Some((members, rest))
    ensures ParseMembers(t) == Some(([member] + members, rest))
  {
    hide ParseMember;
    assert ([COMMA] + tail)[1..] == tail;
  }

  lemma {:induction false} ParsePrinted(j: Json, rest: Text)
    requires WellFormed(j) && Delimited(rest)
    ensures ParseValue(Print(j) + rest) == Some((j, rest))
    decreases j, 1
  {
    hide ParseValue, ParseItems, ParseMembers, Quote, PrintItems, PrintMembers;
    match j
    case Str(s) =>
      StringStep(s, rest);
    case Arr(items) =>
      EmptyStep(rest);
      if items != [] {
        ItemsStart(items);
        ParsePrintedItems(items, rest);
        ArrayStep(PrintItems(items), items, rest);
      } else {
        NothingPrinted();
      }
    case Obj(members) =>
      EmptyStep(rest);
      if members != [] {
        MembersStart(members);
        ParsePrintedMembers(members, rest);
        ObjectStep(PrintMembers(members), members, rest);
      } else {
        NothingPrinted();
      }
    case _ =>
      ParseScalarPrinted(j, rest);
  }

  lemma NothingPrinted()
    ensures PrintItems([]) == [] && PrintMembers([]) == []
  {}

  lemma ItemsStart(items: seq<Json>)
    requires items != [] && WellFormed(items[0])
    ensures PrintItems(items) != [] && !IsJsonSpace(PrintItems(items)[0]) && PrintItems(items)[0] != RBRACKET
  {
    PrintStart(items[0]);
  }

  lemma MembersStart(members: seq<(Text, Json)>)
    requires members != []
    ensures PrintMembers(members) != [] && PrintMembers(members)[0] == QUOTE
  {
    assert PrintMember(members[0])[0] == QUOTE;
  }

  lemma {:induction false} ParsePrintedItems(items: seq<Json>, rest: Text)
    requires items != [] && forall i | 0 <= i < |items| :: WellFormed(items[i])
    ensures ParseItems(PrintItems(items) + [RBRACKET] + rest) == Some((items, rest))
    decreases items, 0
  {
    hide Print, ParseValue, ParseItems, WellFormed;
    var t := PrintItems(items) + [RBRACKET] + rest;
    if |items| == 1 {
      ParsePrinted(items[0], [RBRACKET] + rest);
      assert t == Print(items[0]) + ([RBRACKET] + rest);
      LastItemStep(t, items[0], rest);
      assert [items[0]] == items;
    } else {
      var tail := PrintItems(items[1..]) + [RBRACKET] + rest;
      ParsePrinted(items[0], [COMMA] + tail);
      ParsePrintedItems(items[1..], rest);
      assert t == Print(items[0]) + ([COMMA] + tail);
      NextItemStep(t, items[0], tail, items[1..], rest);
      assert [items[0]] + items[1..] == items;
    }
  }

  lemma MemberStep(key: Text, printed: Text, value: Json, rest: Text)
    requires ParseValue(printed + rest) == Some((value, rest))
    ensures ParseMember(Quote(key) + [COLON] + printed + rest) == Some(((key, value), rest))
  {
    hide ParseValue, ParseString, Escape;
    var t := Quote(key) + [COLON] + printed + rest;
    var after := [COLON] + (printed + rest);
    ParseEscaped(key, after);
    assert t[1..] == Escape(key) + [QUOTE] + after;
    assert after[1..] == printed + rest;
  }

  lemma {:induction false} ParsePrintedMember(member: (Text, Json), rest: Text)
    requires WellFormed(member.1) && Delimited(rest)
    ensures ParseMember(PrintMember(member) + rest) == Some((member, rest))
    decreases member, 2
  {
    hide ParseValue, ParseMember, WellFormed, Quote;
    ParsePrinted(member.1, rest);
    MemberStep(member.0, Print(member.1), member.1, rest);
  }

  lemma {:induction false} ParsePrintedMembers(members: seq<(Text, Json)>, rest: Text)
    requires members != [] && forall i | 0 <= i < |members| :: WellFormed(members[i].1)
    ensures ParseMembers(PrintMembers(members) + [RBRACE] + rest) == Some((members, rest))
    decreases members, 0
  {
    hide Print, PrintMember, ParseMember, ParseMembers, WellFormed;
    var t := PrintMembers(members) + [RBRACE] + rest;
    if |members| == 1 {
      ParsePrintedMember(members[0], [RBRACE] + rest);
      assert t == PrintMember(members[0]) + ([RBRACE] + rest);
      LastMemberStep(t, members[0], rest);
      assert [members[0]] == members;
    } else {
      var tail := PrintMembers(members[1..]) + [RBRACE] + rest;
      ParsePrintedMember(members[0], [COMMA] + tail);
      ParsePrintedMembers(members[1..], rest);
      assert t == PrintMember(members[0]) + ([COMMA] + tail);
      NextMemberStep(t, members[0], tail, members[1..], rest);
      assert [members[0]] + members[1..] == members;
    }
  }

  /** `JSON.parse(JSON.stringify(j))` is `j`. */
  lemma ParsePrint(j: Json)
    requires WellFormed(j)
    ensures Parse(Print(j)) == Some(j)
  {
    ParsePrinted(j, []);
    assert Print(j) + [] == Print(j);
  }

  lemma PrintInjective(a: Json, b: Json)
    requires WellFormed(a) && WellFormed(b) && Print(a) == Print(b)
    ensures a == b
  {
    ParsePrint(a);
    ParsePrint(b);
  }

  // What is printed holds no control character, so no line end

  predicate NoControl(t: Text) {
    forall i | 0 <= i < |t| :: t[i] >= 0x20
  }

  lemma EscapeUnitNoControl(c: unit)
    ensures NoControl(EscapeUnit(c))
  {}

  lemma {:induction false} EscapeNoControl(s: Text)
    ensures NoControl(Escape(s))
  {
    hide EscapeUnit;
    if s == [] {
    } else if |s| > 1 && IsHigh(s[0]) && IsLow(s[1]) {
      EscapeNoControl(s[2..]);
    } else {
      EscapeUnitNoControl(s[0]);
      EscapeNoControl(s[1..]);
    }
  }

  /** A printed value is one line. */
  lemma {:induction false} PrintNoControl(j: Json)
    requires WellFormed(j)
    ensures NoControl(Print(j))
    decreases j, 1
  {
    hide IsNumber;
    match j
    case Num(text) => NumberUnits(text);
    case Str(s) => EscapeNoControl(s);
    case Arr(items) => ItemsNoControl(items);
    case Obj(members) => MembersNoControl(members);
    case _ =>
  }

  lemma {:induction false} ItemsNoControl(items: seq<Json>)
    requires forall i | 0 <= i < |items| :: WellFormed(items[i])
    ensures NoControl(PrintItems(items))
    decreases items, 0
  {
    hide Print;
    if items != [] {
      PrintNoControl(items[0]);
      ItemsNoControl(items[1..]);
    }
  }

  lemma MemberNoControl(member: (Text, Json))
    requires WellFormed(member.1)
    ensures NoControl(PrintMember(member))
    decreases member, 2
  {
    hide Print, Escape;
    EscapeNoControl(member.0);
    PrintNoControl(member.1);
  }

  lemma {:induction false} MembersNoControl(members: seq<(Text, Json)>)
    requires forall i | 0 <= i < |members| :: WellFormed(members[i].1)
    ensures NoControl(PrintMembers(members))
    decreases members, 0
  {
    hide PrintMember;
    if members != [] {
      MemberNoControl(members[0]);
      MembersNoControl(members[1..]);
    }
  }
}
