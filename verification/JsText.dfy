/** JavaScript strings: sequences of 16-bit code units, lone surrogates included. */
module JsText {

  newtype unit = c: int | 0 <= c < 0x1_0000
  type Text = seq<unit>

  datatype Option<+V> = None | Some(value: V)

  const LF: unit := 10

  /** The text of a literal (every literal used here is ASCII). */
  function Lit(s: string): (t: Text)
    ensures |t| == |s| && forall i :: 0 <= i < |s| ==> t[i] == UnitOf(s[i])
  {
    seq(|s|, i requires 0 <= i < |s| => UnitOf(s[i]))
  }

  function UnitOf(c: char): unit {
    if c as int < 0x1_0000 then c as int as unit else 0xFFFD
  }

  // Searching

  ghost predicate At<E>(s: seq<E>, p: seq<E>, i: int) {
    0 <= i <= |s| - |p| && s[i..i + |p|] == p
  }

  ghost predicate Contains<E>(s: seq<E>, p: seq<E>) {
    exists i :: At(s, p, i)
  }

  /** `s.indexOf(p, from)`; -1 when there is no occurrence. */
  function IndexOf<E(==)>(s: seq<E>, p: seq<E>, from: nat := 0): (r: int)
    ensures r == -1 ==> forall i | from <= i :: !At(s, p, i)
    ensures r != -1 ==> from <= r && At(s, p, r) && forall i | from <= i < r :: !At(s, p, i)
    decreases |s| - from
  {
    if from + |p| > |s| then -1
    else if s[from..from + |p|] == p then from
    else IndexOf(s, p, from + 1)
  }

  /** `s.replaceAll(p, r)` for a non-empty `p`: leftmost occurrences, without overlap. */
  function ReplaceAll<E(==)>(s: seq<E>, p: seq<E>, r: seq<E>): seq<E>
    requires p != []
    decreases |s|
  {
    var at := IndexOf(s, p);
    if at == -1 then s else s[..at] + r + ReplaceAll(s[at + |p|..], p, r)
  }

  // Trimming

  /** WhiteSpace and LineTerminator of the language: what `trim` strips and `\s` matches. */
  predicate IsSpace(c: unit) {
    9 <= c <= 13 || c == 0x20 || c == 0xA0 || c == 0x1680 || 0x2000 <= c <= 0x200A
    || c == 0x2028 || c == 0x2029 || c == 0x202F || c == 0x205F || c == 0x3000 || c == 0xFEFF
  }

  function TrimStart(s: Text): (t: Text)
    ensures |t| <= |s|
  {
    if s == [] || !IsSpace(s[0]) then s else TrimStart(s[1..])
  }

  function TrimEnd(s: Text): (t: Text)
    ensures |t| <= |s|
  {
    if s == [] || !IsSpace(s[|s| - 1]) then s else TrimEnd(s[..|s| - 1])
  }

  function Trim(s: Text): (t: Text)
    ensures |t| <= |s|
  {
    TrimEnd(TrimStart(s))
  }

  lemma {:induction false} TrimStartFacts(s: Text)
    ensures var t := TrimStart(s);
      t == s[|s| - |t|..] && (forall i | 0 <= i < |s| - |t| :: IsSpace(s[i])) && (t == [] || !IsSpace(t[0]))
  {
    hide IsSpace;
    if s != [] && IsSpace(s[0]) {
      TrimStartFacts(s[1..]);
      var t := TrimStart(s);
      assert forall i | 1 <= i < |s| - |t| :: s[i] == s[1..][i - 1];
    }
  }

  lemma {:induction false} TrimEndFacts(s: Text)
    ensures var t := TrimEnd(s);
      t == s[..|t|] && (forall i | |t| <= i < |s| :: IsSpace(s[i])) && (t == [] || !IsSpace(t[|t| - 1]))
  {
    hide IsSpace;
    if s != [] && IsSpace(s[|s| - 1]) {
      TrimEndFacts(s[..|s| - 1]);
    }
  }

  lemma TrimIsTrimmed(s: Text)
    ensures Trimmed(Trim(s))
  {
    TrimStartFacts(s);
    TrimEndFacts(TrimStart(s));
  }

  /** Trimming cuts white space off both ends and nothing else. */
  lemma TrimCuts(s: Text) returns (lo: nat, hi: nat)
    ensures lo <= hi <= |s| && Trim(s) == s[lo..hi]
    ensures forall i | 0 <= i < |s| && (i < lo || hi <= i) :: IsSpace(s[i])
  {
    TrimStartFacts(s);
    var t := TrimStart(s);
    TrimEndFacts(t);
    hide TrimStart, TrimEnd, IsSpace;
    lo := |s| - |t|;
    hi := lo + |TrimEnd(t)|;
    assert forall i | hi <= i < |s| :: s[i] == t[i - lo];
  }

  predicate Trimmed(s: Text) {
    s == [] || (!IsSpace(s[0]) && !IsSpace(s[|s| - 1]))
  }

  lemma TrimTrimmed(s: Text)
    requires Trimmed(s)
    ensures Trim(s) == s
  {}

  // Splitting and joining

  function Split<E(==)>(s: seq<E>, sep: E): (parts: seq<seq<E>>)
    ensures |parts| >= 1
    ensures forall k | 0 <= k < |parts| :: sep !in parts[k]
  {
    if s == [] then [[]] else SplitHead(s[0], sep, Split(s[1..], sep))
  }

  function SplitHead<E(==)>(c: E, sep: E, rest: seq<seq<E>>): (parts: seq<seq<E>>)
    requires |rest| >= 1
    ensures |parts| >= 1
    ensures (forall k | 0 <= k < |rest| :: sep !in rest[k]) ==> forall k | 0 <= k < |parts| :: sep !in parts[k]
  {
    if c == sep then [[]] + rest else [[c] + rest[0]] + rest[1..]
  }

  lemma {:induction false} SplitAt<E>(x: seq<E>, sep: E, y: seq<E>)
    ensures Split(x + [sep] + y, sep) == Split(x, sep) + Split(y, sep)
  {
    if x == [] {
      SplitCons(sep, y, sep);
      assert x + [sep] + y == [sep] + y;
      assert Split(x, sep) == [[]];
    } else {
      SplitCons(x[0], x[1..], sep);
      SplitCons(x[0], x[1..] + [sep] + y, sep);
      assert x == [x[0]] + x[1..];
      assert x + [sep] + y == [x[0]] + (x[1..] + [sep] + y);
      hide Split, SplitHead;
      SplitAt(x[1..], sep, y);
      SplitHeadAppend(x[0], sep, Split(x[1..], sep), Split(y, sep));
    }
  }

  lemma SplitCons<E>(c: E, rest: seq<E>, sep: E)
    ensures Split([c] + rest, sep) == SplitHead(c, sep, Split(rest, sep))
    ensures c == sep ==> Split([c] + rest, sep) == [[]] + Split(rest, sep)
  {
    assert ([c] + rest)[1..] == rest;
  }

  lemma SplitHeadAppend<E>(c: E, sep: E, a: seq<seq<E>>, b: seq<seq<E>>)
    requires |a| >= 1
    ensures SplitHead(c, sep, a + b) == SplitHead(c, sep, a) + b
  {
    assert (a + b)[0] == a[0] && (a + b)[1..] == a[1..] + b;
  }

  lemma {:induction false} NoSplit<E>(s: seq<E>, sep: E)
    requires sep !in s
    ensures Split(s, sep) == [s]
  {
    if s != [] {
      NoSplit(s[1..], sep);
      assert [s[0]] + s[1..] == s;
    }
  }

  function Join<E>(parts: seq<seq<E>>, sep: seq<E>): seq<E>
  {
    if parts == [] then [] else if |parts| == 1 then parts[0] else parts[0] + sep + Join(parts[1..], sep)
  }

  /** Splitting at a separator no part holds undoes joining with it. */
  lemma {:induction false} SplitJoin<E>(parts: seq<seq<E>>, sep: E)
    requires |parts| >= 1
    requires forall k | 0 <= k < |parts| :: sep !in parts[k]
    ensures Split(Join(parts, [sep]), sep) == parts
    decreases |parts|, |parts[0]|
  {
    var s := Join(parts, [sep]);
    if parts[0] == [] {
      if |parts| > 1 {
        assert s[0] == sep && s[1..] == Join(parts[1..], [sep]);
        SplitJoin(parts[1..], sep);
      }
    } else {
      var smaller := [parts[0][1..]] + parts[1..];
      assert smaller[1..] == parts[1..];
      assert s == [parts[0][0]] + Join(smaller, [sep]);
      SplitJoin(smaller, sep);
      assert s[1..] == Join(smaller, [sep]);
      assert parts[0] == [s[0]] + smaller[0] && s[0] in parts[0];
    }
  }

  lemma {:induction false} JoinSplit<E>(s: seq<E>, sep: E)
    ensures Join(Split(s, sep), [sep]) == s
  {
    if s != [] {
      JoinSplit(s[1..], sep);
      var rest := Split(s[1..], sep);
      var parts := Split(s, sep);
      if s[0] == sep {
        assert parts[1..] == rest;
      } else {
        assert parts[1..] == rest[1..];
      }
    }
  }

  // Decimal digits

  function Digits(n: nat): (d: Text)
    ensures |d| > 0 && forall i | 0 <= i < |d| :: 48 <= d[i] <= 57
  {
    if n < 10 then [(48 + n) as unit] else Digits(n / 10) + [(48 + n % 10) as unit]
  }

  function DecimalValue(d: Text): int {
    if d == [] then 0 else 10 * DecimalValue(d[..|d| - 1]) + d[|d| - 1] as int - 48
  }

  /** The digits denote the number, and do not begin with a zero unless it is the number. */
  lemma {:induction false} DigitsDenote(n: nat)
    ensures DecimalValue(Digits(n)) == n && (Digits(n)[0] == 48 ==> n == 0)
  {
    if n >= 10 {
      DigitsDenote(n / 10);
      assert Digits(n)[..|Digits(n)| - 1] == Digits(n / 10);
    } else {
      assert Digits(n)[..0] == [];
    }
  }

  // Order by code units, `<` on strings

  predicate Less(a: Text, b: Text) {
    b != [] && (a == [] || a[0] < b[0] || (a[0] == b[0] && Less(a[1..], b[1..])))
  }

  lemma {:induction false} LessTrichotomy(a: Text, b: Text)
    ensures a == b || Less(a, b) || Less(b, a)
    ensures !(Less(a, b) && Less(b, a))
    ensures Less(a, b) ==> a != b
  {
    if a != [] && b != [] && a[0] == b[0] {
      LessTrichotomy(a[1..], b[1..]);
      assert a == [a[0]] + a[1..] && b == [b[0]] + b[1..];
    }
  }

  /** At the first unit where they differ the lesser one has the lesser unit, or has ended. */
  lemma {:induction false} LessAtFirst(a: Text, b: Text)
    ensures Less(a, b) <==> exists n: nat :: n <= |a| && n < |b| && a[..n] == b[..n] && (n == |a| || a[n] < b[n])
  {
    if a != [] && b != [] && a[0] == b[0] {
      LessAtFirst(a[1..], b[1..]);
      if Less(a, b) {
        var n: nat :| n <= |a[1..]| && n < |b[1..]| && a[1..][..n] == b[1..][..n] && (n == |a[1..]| || a[1..][n] < b[1..][n]);
        assert a[..n + 1] == [a[0]] + a[1..][..n] && b[..n + 1] == [b[0]] + b[1..][..n];
        assert n + 1 == |a| || a[n + 1] < b[n + 1];
      }
      if n: nat :| n <= |a| && n < |b| && a[..n] == b[..n] && (n == |a| || a[n] < b[n]) {
        assert a[1..][..n - 1] == a[..n][1..] && b[1..][..n - 1] == b[..n][1..];
        assert n - 1 == |a[1..]| || a[1..][n - 1] < b[1..][n - 1];
      }
    } else {
      assert a[..0] == b[..0];
      assert forall n | 0 < n <= |a| && n <= |b| && a[..n] == b[..n] :: a[..n][0] == b[..n][0] == a[0];
    }
  }

  lemma {:induction false} LessTransitive(a: Text, b: Text, c: Text)
    requires Less(a, b) && Less(b, c)
    ensures Less(a, c)
  {
    if a != [] && a[0] == b[0] && b[0] == c[0] {
      LessTransitive(a[1..], b[1..], c[1..]);
    }
  }

  // Objects as lists of entries

  ghost predicate DistinctKeys<V>(entries: seq<(Text, V)>) {
    forall i, j | 0 <= i < j < |entries| :: entries[i].0 != entries[j].0
  }
}
