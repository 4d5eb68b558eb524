/** `TextEncoder` (UTF-8, RFC 3629 section 3): a lone surrogate is encoded as U+FFFD, so only texts without one can be
    told apart by their bytes. */
module Utf8 {
  import opened JsNumber
  import opened JsText
  import Json

  type point = c: int | 0 <= c < 0x11_0000

  /** The code points of a text, with U+FFFD for each lone surrogate. */
  function Points(t: Text): seq<point> {
    if t == [] then []
    else if |t| > 1 && Json.IsHigh(t[0]) && Json.IsLow(t[1]) then [Pair(t[0], t[1])] + Points(t[2..])
    else if Json.IsHigh(t[0]) || Json.IsLow(t[0]) then [0xFFFD] + Points(t[1..])
    else [t[0] as int] + Points(t[1..])
  }

  function Pair(high: unit, low: unit): point
    requires Json.IsHigh(high) && Json.IsLow(low)
  {
    0x1_0000 + (high as int - 0xD800) * 0x400 + (low as int - 0xDC00)
  }

  function PointBytes(c: point): (b: seq<byte>)
    ensures 1 <= |b| <= 4
  {
    if c < 0x80 then [c]
    else if c < 0x800 then [0xC0 + c / 64, 0x80 + c % 64]
    else if c < 0x1_0000 then [0xE0 + c / 4096, 0x80 + c / 64 % 64, 0x80 + c % 64]
    else [0xF0 + c / 262144, 0x80 + c / 4096 % 64, 0x80 + c / 64 % 64, 0x80 + c % 64]
  }

  function PointsBytes(points: seq<point>): seq<byte> {
    if points == [] then [] else PointBytes(points[0]) + PointsBytes(points[1..])
  }

  /** `encode`. */
  function Encode(t: Text): seq<byte> {
    PointsBytes(Points(t))
  }

  // Bytes determine code points

  /** How many bytes a point's first byte announces. */
  function Announced(first: byte): nat {
    if first < 0x80 then 1 else if first < 0xE0 then 2 else if first < 0xF0 then 3 else 4
  }

  lemma FirstByteAnnounces(c: point)
    ensures Announced(PointBytes(c)[0]) == |PointBytes(c)|
  {}

  function Joined(b: seq<byte>): int
    requires 1 <= |b| <= 4
  {
    if |b| == 1 then b[0]
    else if |b| == 2 then (b[0] as int - 0xC0) * 64 + (b[1] as int - 0x80)
    else if |b| == 3 then (b[0] as int - 0xE0) * 4096 + (b[1] as int - 0x80) * 64 + (b[2] as int - 0x80)
    else (b[0] as int - 0xF0) * 262144 + (b[1] as int - 0x80) * 4096 + (b[2] as int - 0x80) * 64 + (b[3] as int - 0x80)
  }

  lemma SixBits(c: int)
    requires c >= 0
    ensures c == c / 64 * 64 + c % 64
    ensures c == c / 4096 * 4096 + c / 64 % 64 * 64 + c % 64
    ensures c == c / 262144 * 262144 + c / 4096 % 64 * 4096 + c / 64 % 64 * 64 + c % 64
  {
    var q1, r0 := c / 64, c % 64;
    var q2, r1 := q1 / 64, q1 % 64;
    var q3, r2 := q2 / 64, q2 % 64;
    ModUnique(c, 4096, q2, r1 * 64 + r0);
    ModUnique(c, 262144, q3, r2 * 4096 + r1 * 64 + r0);
  }

  lemma JoinedBack(c: point)
    ensures Joined(PointBytes(c)) == c
  {
    SixBits(c);
  }

  lemma {:induction false} BytesDetermine(a: seq<point>, b: seq<point>)
    requires PointsBytes(a) == PointsBytes(b)
    ensures a == b
  {
    if a == [] || b == [] {
      hide PointBytes;
    } else {
      var x, y := PointBytes(a[0]), PointBytes(b[0]);
      FirstByteAnnounces(a[0]);
      FirstByteAnnounces(b[0]);
      JoinedBack(a[0]);
      JoinedBack(b[0]);
      hide PointBytes, Announced, Joined;
      var s, t := x + PointsBytes(a[1..]), y + PointsBytes(b[1..]);
      assert s[0] == x[0] && t[0] == y[0];
      assert s[..|x|] == x && t[..|y|] == y;
      assert s[|x|..] == PointsBytes(a[1..]) && t[|y|..] == PointsBytes(b[1..]);
      BytesDetermine(a[1..], b[1..]);
      assert a == [a[0]] + a[1..] && b == [b[0]] + b[1..];
    }
  }

  // Whole texts

  /** No surrogate stands alone. */
  predicate Whole(t: Text) {
    t == [] ||
    (if |t| > 1 && Json.IsHigh(t[0]) && Json.IsLow(t[1]) then Whole(t[2..])
     else !Json.IsHigh(t[0]) && !Json.IsLow(t[0]) && Whole(t[1..]))
  }

  lemma {:induction false} PointsDetermine(a: Text, b: Text)
    requires Whole(a) && Whole(b) && Points(a) == Points(b)
    ensures a == b
  {
    if a != [] && b != [] {
      var x, y := Points(a), Points(b);
      var m, n := if Json.IsHigh(a[0]) then 2 else 1, if Json.IsHigh(b[0]) then 2 else 1;
      assert x[1..] == Points(a[m..]) && y[1..] == Points(b[n..]);
      PointsDetermine(a[m..], b[n..]);
      assert x[0] == y[0];
      assert m == n && a[..m] == b[..n];
      assert a == a[..m] + a[m..] && b == b[..n] + b[n..];
    }
  }

  /** `toWellFormed`: each lone surrogate becomes U+FFFD, and nothing else changes. */
  function Scrubbed(t: Text): (s: Text)
    ensures |s| == |t|
    ensures forall i | 0 <= i < |t| :: s[i] == t[i] || (s[i] == 0xFFFD && (Json.IsHigh(t[i]) || Json.IsLow(t[i])))
  {
    if t == [] then []
    else if |t| > 1 && Json.IsHigh(t[0]) && Json.IsLow(t[1]) then t[..2] + Scrubbed(t[2..])
    else if Json.IsHigh(t[0]) || Json.IsLow(t[0]) then [0xFFFD] + Scrubbed(t[1..])
    else [t[0]] + Scrubbed(t[1..])
  }

  lemma {:induction false} ScrubbedWhole(t: Text)
    ensures Whole(Scrubbed(t)) && Points(Scrubbed(t)) == Points(t)
  {
    if t != [] {
      var s := Scrubbed(t);
      var n := if |t| > 1 && Json.IsHigh(t[0]) && Json.IsLow(t[1]) then 2 else 1;
      assert s[n..] == Scrubbed(t[n..]);
      assert n == 2 ==> s[0] == t[0] && s[1] == t[1];
      ScrubbedWhole(t[n..]);
    }
  }

  // UTF-16 (RFC 2781 section 2.1)

  function PointUnits(c: point): Text {
    if c < 0x1_0000 then [c as unit]
    else [(0xD800 + (c - 0x1_0000) / 0x400) as unit, (0xDC00 + (c - 0x1_0000) % 0x400) as unit]
  }

  function Utf16(points: seq<point>): Text {
    if points == [] then [] else PointUnits(points[0]) + Utf16(points[1..])
  }

  lemma PairUnits(high: unit, low: unit)
    requires Json.IsHigh(high) && Json.IsLow(low)
    ensures PointUnits(Pair(high, low)) == [high, low]
  {
    var c: int := Pair(high, low);
    ModUnique(c - 0x1_0000, 0x400, high as int - 0xD800, low as int - 0xDC00);
  }

  /** The code points of a text are the ones its units encode: encoding them again gives the text, scrubbed. */
  lemma {:induction false} PointsEncoded(t: Text)
    ensures Utf16(Points(t)) == Scrubbed(t)
  {
    hide PointUnits, Pair;
    if t != [] {
      var points := Points(t);
      if |t| > 1 && Json.IsHigh(t[0]) && Json.IsLow(t[1]) {
        PairUnits(t[0], t[1]);
        assert points == [Pair(t[0], t[1])] + Points(t[2..]);
        PointsEncoded(t[2..]);
      } else {
        PlainUnits(t[0]);
        assert points[1..] == Points(t[1..]);
        PointsEncoded(t[1..]);
      }
    }
  }

  lemma PlainUnits(c: unit)
    ensures PointUnits(c as int) == [c] && PointUnits(0xFFFD) == [0xFFFD]
  {}

  /** And any scalar values are the code points of what encodes them. */
  lemma {:induction false} EncodedPoints(points: seq<point>)
    requires forall c | c in points :: !(0xD800 <= c <= 0xDFFF)
    ensures Points(Utf16(points)) == points && Whole(Utf16(points))
  {
    if points != [] {
      var c, rest := points[0], Utf16(points[1..]);
      assert c in points && forall d | d in points[1..] :: d in points;
      EncodedPoints(points[1..]);
      UnitsOf(c);
      var units := PointUnits(c);
      hide PointUnits, Utf16;
      assert (units + rest)[|units|..] == rest;
      assert Points(units + rest) == [c] + Points(rest);
    }
  }

  lemma UnitsOf(c: point)
    requires !(0xD800 <= c <= 0xDFFF)
    ensures var units := PointUnits(c);
      if c < 0x1_0000 then units == [c as unit]
      else |units| == 2 && Json.IsHigh(units[0]) && Json.IsLow(units[1]) && Pair(units[0], units[1]) == c
  {}

  lemma {:induction false} WholeStays(t: Text)
    requires Whole(t)
    ensures Scrubbed(t) == t
  {
    if t != [] {
      var n := if Json.IsHigh(t[0]) then 2 else 1;
      WholeStays(t[n..]);
      assert t == t[..n] + t[n..];
    }
  }

  /** Two texts have the same bytes exactly when they have the same code points, that is, when they differ in nothing
      but which lone surrogate or U+FFFD stands where. */
  lemma EncodeExact(a: Text, b: Text)
    ensures Encode(a) == Encode(b) <==> Points(a) == Points(b)
    ensures Encode(a) == Encode(b) <==> Scrubbed(a) == Scrubbed(b)
  {
    ScrubbedWhole(a);
    ScrubbedWhole(b);
    if Encode(a) == Encode(b) {
      BytesDetermine(Points(a), Points(b));
      PointsDetermine(Scrubbed(a), Scrubbed(b));
    }
  }

  /** Texts without lone surrogates are told apart by their bytes. */
  lemma EncodeInjective(a: Text, b: Text)
    requires Whole(a) && Whole(b)
    ensures Encode(a) == Encode(b) <==> a == b
  {
    EncodeExact(a, b);
    WholeStays(a);
    WholeStays(b);
  }

  /** A text whose repaired form holds no U+FFFD had nothing to repair. */
  lemma NothingScrubbed(t: Text)
    requires 0xFFFD !in Scrubbed(t)
    ensures Scrubbed(t) == t
  {
    forall i | 0 <= i < |t| ensures Scrubbed(t)[i] == t[i] {
      assert Scrubbed(t)[i] in Scrubbed(t);
    }
  }

  predicate Surrogate(c: unit) {
    Json.IsHigh(c) || Json.IsLow(c)
  }

  /** How many units the first code point takes. */
  function Width(t: Text): (n: nat)
    requires t != []
    ensures 1 <= n <= |t|
  {
    if |t| > 1 && Json.IsHigh(t[0]) && Json.IsLow(t[1]) then 2 else 1
  }

  lemma ScrubbedHead(t: Text)
    requires t != []
    ensures Scrubbed(t) == Scrubbed(t[..Width(t)]) + Scrubbed(t[Width(t)..])
  {
    var n := Width(t);
    assert t[..n][n..] == [];
    hide Json.IsHigh, Json.IsLow;
  }

  /** A unit that is no surrogate keeps its two sides apart. */
  lemma {:induction false} ScrubbedAround(a: Text, c: unit, b: Text)
    requires !Surrogate(c)
    ensures Scrubbed(a + [c] + b) == Scrubbed(a) + [c] + Scrubbed(b)
  {
    var t := a + [c] + b;
    if a == [] {
      ScrubbedFirst(c, b);
      assert t == [c] + b;
    } else {
      var n := Width(a);
      WidthAround(a, c, b);
      ScrubbedHead(t);
      ScrubbedHead(a);
      hide *;
      ScrubbedAround(a[n..], c, b);
      assert Scrubbed(a[..n]) + (Scrubbed(a[n..]) + [c] + Scrubbed(b)) == Scrubbed(a[..n]) + Scrubbed(a[n..]) + [c] + Scrubbed(b);
    }
  }

  lemma ScrubbedFirst(c: unit, b: Text)
    requires !Surrogate(c)
    ensures Scrubbed([c] + b) == [c] + Scrubbed(b) && Scrubbed([]) == []
  {
    assert ([c] + b)[1..] == b;
  }

  lemma WidthAround(a: Text, c: unit, b: Text)
    requires a != [] && !Surrogate(c)
    ensures var n, t := Width(a), a + [c] + b; n == Width(t) && t[..n] == a[..n] && t[n..] == a[n..] + [c] + b
  {}

  /** A low surrogate after a whole text stands alone. */
  lemma {:induction false} ScrubbedTwin(a: Text, b: Text)
    requires Whole(a)
    ensures Scrubbed(a + [0xDC00] + b) == a + [0xFFFD] + Scrubbed(b)
  {
    var t := a + [0xDC00] + b;
    if a == [] {
      assert t[1..] == b;
    } else {
      var n := Width(a);
      assert n == Width(t) && t[..n] == a[..n] && t[n..] == a[n..] + [0xDC00] + b;
      WholeHead(a);
      ScrubbedHead(t);
      hide Scrubbed, Whole;
      ScrubbedTwin(a[n..], b);
      assert a == a[..n] + a[n..];
    }
  }

  lemma WholeHead(a: Text)
    requires Whole(a) && a != []
    ensures Whole(a[Width(a)..]) && Scrubbed(a[..Width(a)]) == a[..Width(a)]
  {
    var n := Width(a);
    assert a[..n][n..] == [];
  }

  lemma {:induction false} WholeParts(a: Text, c: unit, b: Text)
    requires !Surrogate(c) && Whole(a + [c] + b)
    ensures Whole(a) && Whole(b)
  {
    var t := a + [c] + b;
    if a == [] {
      assert t[1..] == b;
    } else {
      var n := if Json.IsHigh(a[0]) then 2 else 1;
      assert t[1] == (if |a| > 1 then a[1] else c);
      assert t[n..] == a[n..] + [c] + b;
      WholeParts(a[n..], c, b);
    }
  }

  /** The units that `TextEncoder` may confuse. */
  predicate Confusable(c: unit) {
    c == 0xFFFD || Surrogate(c)
  }

  /** The two texts differ in nothing but confusable units. */
  ghost predicate Alike(a: Text, b: Text) {
    |a| == |b| && forall i | 0 <= i < |a| :: a[i] == b[i] || (Confusable(a[i]) && Confusable(b[i]))
  }

  /** A text that repairs to one with a U+FFFD has a twin: another text with the same bytes. */
  lemma Twin(t: Text) returns (twin: Text)
    requires 0xFFFD in Scrubbed(t)
    ensures twin != t && Encode(twin) == Encode(t) && Alike(twin, t)
  {
    hide Scrubbed, Encode, Whole, Points;
    var s := Scrubbed(t);
    var i :| 0 <= i < |s| && s[i] == 0xFFFD;
    ScrubbedWhole(t);
    WholeStays(s);
    var other := s[..i] + [0xDC00] + s[i + 1..];
    TwinAt(s, i);
    twin := if t == s then other else s;
    EncodeExact(twin, t);
  }

  lemma TwinAt(s: Text, i: nat)
    requires i < |s| && s[i] == 0xFFFD && Whole(s)
    ensures Scrubbed(s[..i] + [0xDC00] + s[i + 1..]) == s
    ensures s[..i] + [0xDC00] + s[i + 1..] != s
  {
    hide Scrubbed, Whole;
    assert s == s[..i] + [0xFFFD] + s[i + 1..];
    WholeParts(s[..i], 0xFFFD, s[i + 1..]);
    ScrubbedTwin(s[..i], s[i + 1..]);
    WholeStays(s[i + 1..]);
    assert (s[..i] + [0xDC00] + s[i + 1..])[i] != s[i];
  }

  /** Bytes determine a text exactly when it holds neither a lone surrogate nor U+FFFD. */
  lemma BytesDetermineText(t: Text)
    ensures (forall r | Encode(r) == Encode(t) :: r == t) <==> 0xFFFD !in Scrubbed(t)
  {
    hide Encode, Scrubbed, Alike;
    if 0xFFFD in Scrubbed(t) {
      var twin := Twin(t);
      assert Encode(twin) == Encode(t) && twin != t;
    } else {
      forall r | Encode(r) == Encode(t) ensures r == t {
        EncodeExact(r, t);
        NothingScrubbed(r);
        NothingScrubbed(t);
      }
    }
  }

  lemma {:induction false} WholeAppend(a: Text, b: Text)
    requires Whole(a) && Whole(b)
    ensures Whole(a + b)
  {
    if a == [] {
      assert a + b == b;
    } else {
      var n := if Json.IsHigh(a[0]) then 2 else 1;
      assert (a + b)[n..] == a[n..] + b;
      WholeAppend(a[n..], b);
    }
  }

  lemma {:induction false} PlainIsWhole(t: Text)
    requires forall i | 0 <= i < |t| :: t[i] < 0xD800
    ensures Whole(t)
  {
    if t != [] {
      PlainIsWhole(t[1..]);
    }
  }

  // What JSON prints is whole

  lemma EscapeUnitPlain(c: unit)
    ensures Whole(Json.EscapeUnit(c))
  {
    var e := Json.EscapeUnit(c);
    if Json.ShortEscape(c).Some? || c < 0x20 || Json.IsHigh(c) || Json.IsLow(c) {
      PlainIsWhole(e);
    }
  }

  lemma {:induction false} EscapeWhole(s: Text)
    ensures Whole(Json.Escape(s))
  {
    hide Json.EscapeUnit;
    if s == [] {
    } else if |s| > 1 && Json.IsHigh(s[0]) && Json.IsLow(s[1]) {
      EscapeWhole(s[2..]);
      assert s[..2][2..] == [];
      WholeAppend(s[..2], Json.Escape(s[2..]));
    } else {
      EscapeUnitPlain(s[0]);
      EscapeWhole(s[1..]);
      WholeAppend(Json.EscapeUnit(s[0]), Json.Escape(s[1..]));
    }
  }

  /** A quoted string holds no lone surrogate, whatever the string holds. */
  lemma QuoteWhole(s: Text)
    ensures Whole(Json.Quote(s))
  {
    EscapeWhole(s);
    PlainIsWhole([Json.QUOTE]);
    WholeAppend([Json.QUOTE], Json.Escape(s));
    WholeAppend([Json.QUOTE] + Json.Escape(s), [Json.QUOTE]);
  }

  lemma {:induction false} PrintWhole(j: Json.Json)
    requires Json.WellFormed(j)
    ensures Whole(Json.Print(j))
    decreases j, 1
  {
    hide Json.Quote, Whole, Json.IsNumber;
    match j
    case Null => PlainIsWhole(Json.NULL);
    case Bool(b) => PlainIsWhole(if b then Json.TRUE else Json.FALSE);
    case Num(text) =>
      Json.NumberUnits(text);
      PlainIsWhole(text);
    case Str(s) => QuoteWhole(s);
    case Arr(items) =>
      ItemsWhole(items);
      Enclosed(Json.LBRACKET, Json.PrintItems(items), Json.RBRACKET);
    case Obj(members) =>
      MembersWhole(members);
      Enclosed(Json.LBRACE, Json.PrintMembers(members), Json.RBRACE);
  }

  lemma Enclosed(open: unit, t: Text, close: unit)
    requires open < 0xD800 && close < 0xD800 && Whole(t)
    ensures Whole([open] + t + [close])
  {
    PlainIsWhole([open]);
    PlainIsWhole([close]);
    WholeAppend([open], t);
    WholeAppend([open] + t, [close]);
  }

  lemma Separated(a: Text, sep: unit, b: Text)
    requires sep < 0xD800 && Whole(a) && Whole(b)
    ensures Whole(a + [sep] + b)
  {
    PlainIsWhole([sep]);
    WholeAppend(a, [sep]);
    WholeAppend(a + [sep], b);
  }

  lemma {:induction false} ItemsWhole(items: seq<Json.Json>)
    requires forall i | 0 <= i < |items| :: Json.WellFormed(items[i])
    ensures Whole(Json.PrintItems(items))
    decreases items, 0
  {
    hide Whole, Json.Print;
    if items == [] {
      PlainIsWhole([]);
    } else {
      PrintWhole(items[0]);
      if |items| > 1 {
        ItemsWhole(items[1..]);
        Separated(Json.Print(items[0]), Json.COMMA, Json.PrintItems(items[1..]));
      }
    }
  }

  lemma MemberWhole(member: (Text, Json.Json))
    requires Json.WellFormed(member.1)
    ensures Whole(Json.PrintMember(member))
    decreases member, 2
  {
    hide Whole, Json.Print, Json.Quote;
    QuoteWhole(member.0);
    PrintWhole(member.1);
    Separated(Json.Quote(member.0), Json.COLON, Json.Print(member.1));
  }

  lemma {:induction false} MembersWhole(members: seq<(Text, Json.Json)>)
    requires forall i | 0 <= i < |members| :: Json.WellFormed(members[i].1)
    ensures Whole(Json.PrintMembers(members))
    decreases members, 0
  {
    hide Whole, Json.PrintMember;
    if members == [] {
      PlainIsWhole([]);
    } else {
      MemberWhole(members[0]);
      if |members| > 1 {
        MembersWhole(members[1..]);
        Separated(Json.PrintMember(members[0]), Json.COMMA, Json.PrintMembers(members[1..]));
      }
    }
  }
}
