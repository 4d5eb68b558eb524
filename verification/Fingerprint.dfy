/** The canonical text of a claims object (shared/claims-fingerprint.ts): when two claims
    objects print alike, and when two fingerprints hash the same text. */
module Fingerprint {
  import Base64
  import Fips180
  import opened JsText
  import Json
  import Sha256
  import Utf8

  /** A JavaScript value as `canonical` meets it. An object is its own enumerable entries in
      their order; `NonJson` is NaN, an infinity, a function or a symbol. */
  datatype Value =
    | Undefined
    | NonJson
    | Null
    | Bool(b: bool)
    | Num(text: Text)
    | Str(s: Text)
    | Arr(items: seq<Value>)
    | Obj(entries: seq<(Text, Value)>)

  type Entries = seq<(Text, Value)>

  /** What every JavaScript value satisfies: one entry a key, and JSON's spelling of a finite number. */
  ghost predicate Valid(v: Value)
    decreases v
  {
    match v
    case Num(text) => Json.IsNumber(text)
    case Arr(items) => forall x | x in items :: Valid(x)
    case Obj(entries) => DistinctKeys(entries) && forall e | e in entries :: Valid(e.1)
    case _ => true
  }

  function Defined(entries: Entries): (kept: Entries)
    ensures forall e :: e in kept <==> e in entries && !e.1.Undefined?
  {
    if entries == [] then []
    else if entries[0].1.Undefined? then Defined(entries[1..])
    else [entries[0]] + Defined(entries[1..])
  }

  ghost predicate SortedByKey(entries: Entries) {
    forall i, j | 0 <= i < j < |entries| :: Less(entries[i].0, entries[j].0)
  }

  function Insert(e: (Text, Value), sorted: Entries): (r: Entries)
    ensures forall x :: x in r <==> x == e || x in sorted
  {
    if sorted == [] || Less(e.0, sorted[0].0) then [e] + sorted
    else [sorted[0]] + Insert(e, sorted[1..])
  }

  /** `sort` by key. Keys are distinct, so any sorting order of the engine gives this list. */
  function Sort(entries: Entries): (r: Entries)
    ensures forall x :: x in r <==> x in entries
  {
    if entries == [] then [] else Insert(entries[0], Sort(entries[1..]))
  }

  function Kept(entries: Entries): (kept: Entries)
    ensures forall e :: e in kept <==> e in entries && !e.1.Undefined?
  {
    Sort(Defined(entries))
  }

  function Canonical(v: Value): Text
    decreases v
  {
    match v
    case Arr(items) =>
      [Json.LBRACKET] + Join(seq(|items|, i requires 0 <= i < |items| => Canonical(items[i])), [Json.COMMA]) + [Json.RBRACKET]
    case Obj(entries) =>
      var kept := Kept(entries);
      [Json.LBRACE] + Join(seq(|kept|, i requires 0 <= i < |kept| =>
        assert kept[i] in kept;
        Json.Quote(kept[i].0) + [Json.COLON] + Canonical(kept[i].1)), [Json.COMMA]) + [Json.RBRACE]
    case Bool(b) => if b then Json.TRUE else Json.FALSE
    case Num(text) => text
    case Str(s) => Json.Quote(s)
    case _ => Json.NULL
  }

  // The value a canonical text spells

  function Norm(v: Value): Json.Json
    decreases v
  {
    match v
    case Arr(items) => Json.Arr(seq(|items|, i requires 0 <= i < |items| => Norm(items[i])))
    case Obj(entries) =>
      var kept := Kept(entries);
      Json.Obj(seq(|kept|, i requires 0 <= i < |kept| =>
        assert kept[i] in kept;
        (kept[i].0, Norm(kept[i].1))))
    case Bool(b) => Json.Bool(b)
    case Num(text) => Json.Num(text)
    case Str(s) => Json.Str(s)
    case _ => Json.Null
  }

  lemma {:induction false} NormWellFormed(v: Value)
    requires Valid(v)
    ensures Json.WellFormed(Norm(v))
    decreases v
  {
    match v
    case Arr(items) =>
      forall i | 0 <= i < |items| ensures Json.WellFormed(Norm(items[i])) { NormWellFormed(items[i]); }
    case Obj(entries) =>
      var kept := Kept(entries);
      forall i | 0 <= i < |kept| ensures Json.WellFormed(Norm(kept[i].1)) {
        assert kept[i] in kept;
        NormWellFormed(kept[i].1);
      }
    case _ =>
  }

  lemma {:induction false} JoinItems(texts: seq<Text>, items: seq<Json.Json>)
    requires |texts| == |items| && forall i | 0 <= i < |items| :: texts[i] == Json.Print(items[i])
    ensures Join(texts, [Json.COMMA]) == Json.PrintItems(items)
  {
    if |texts| > 1 {
      JoinItems(texts[1..], items[1..]);
    }
  }

  lemma {:induction false} JoinMembers(texts: seq<Text>, members: seq<(Text, Json.Json)>)
    requires |texts| == |members| && forall i | 0 <= i < |members| :: texts[i] == Json.PrintMember(members[i])
    ensures Join(texts, [Json.COMMA]) == Json.PrintMembers(members)
  {
    if |texts| > 1 {
      JoinMembers(texts[1..], members[1..]);
    }
  }

  lemma {:induction false} CanonicalPrintsNorm(v: Value)
    ensures Canonical(v) == Json.Print(Norm(v))
    decreases v
  {
    match v
    case Arr(items) =>
      forall i | 0 <= i < |items| ensures Canonical(items[i]) == Json.Print(Norm(items[i])) { CanonicalPrintsNorm(items[i]); }
      JoinItems(seq(|items|, i requires 0 <= i < |items| => Canonical(items[i])), Norm(v).items);
    case Obj(entries) =>
      var kept := Kept(entries);
      forall i | 0 <= i < |kept| ensures Canonical(kept[i].1) == Json.Print(Norm(kept[i].1)) {
        assert kept[i] in kept;
        CanonicalPrintsNorm(kept[i].1);
      }
      JoinMembers(seq(|kept|, i requires 0 <= i < |kept| =>
        assert kept[i] in kept;
        Json.Quote(kept[i].0) + [Json.COLON] + Canonical(kept[i].1)), Norm(v).members);
    case _ =>
  }

  // Equal claims

  /** The scalar a value counts as: everything JSON cannot spell counts as null. */
  function Scalar(v: Value): Value
    requires !v.Arr? && !v.Obj?
  {
    if v.Undefined? || v.NonJson? then Null else v
  }

  /** Equality up to the order of an object's keys and its undefined entries. */
  ghost predicate Same(v: Value, w: Value)
    decreases v
  {
    match v
    case Arr(items) =>
      w.Arr? && |items| == |w.items| && forall i | 0 <= i < |items| :: Same(items[i], w.items[i])
    case Obj(entries) =>
      w.Obj? && SameKeys(entries, w.entries)
      && forall e, f | e in entries && f in w.entries && e.0 == f.0 && !e.1.Undefined? && !f.1.Undefined? :: Same(e.1, f.1)
    case _ => !w.Arr? && !w.Obj? && Scalar(v) == Scalar(w)
  }

  ghost predicate HasKey(entries: Entries, k: Text) {
    exists e :: e in entries && e.0 == k && !e.1.Undefined?
  }

  ghost predicate SameKeys(a: Entries, b: Entries) {
    forall k :: HasKey(a, k) <==> HasKey(b, k)
  }

  function Keys(entries: Entries): seq<Text> {
    seq(|entries|, i requires 0 <= i < |entries| => entries[i].0)
  }

  lemma {:induction false} DefinedDistinct(entries: Entries)
    requires DistinctKeys(entries)
    ensures DistinctKeys(Defined(entries))
  {
    if entries != [] {
      DefinedDistinct(entries[1..]);
      var rest := Defined(entries[1..]);
      forall j | 0 <= j < |rest| ensures rest[j].0 != entries[0].0 {
        assert rest[j] in rest;
      }
    }
  }

  lemma {:induction false} InsertSorted(e: (Text, Value), sorted: Entries)
    requires SortedByKey(sorted) && forall x | x in sorted :: x.0 != e.0
    ensures SortedByKey(Insert(e, sorted))
  {
    if sorted != [] && !Less(e.0, sorted[0].0) {
      LessTrichotomy(e.0, sorted[0].0);
      assert sorted[0] in sorted;
      InsertSorted(e, sorted[1..]);
      var rest := Insert(e, sorted[1..]);
      forall j | 0 <= j < |rest| ensures Less(sorted[0].0, rest[j].0) {
        assert rest[j] in rest;
      }
    } else if sorted != [] {
      forall j | 0 <= j < |sorted| ensures Less(e.0, sorted[j].0) {
        if j > 0 {
          LessTransitive(e.0, sorted[0].0, sorted[j].0);
        }
      }
    }
  }

  lemma {:induction false} SortSorted(entries: Entries)
    requires DistinctKeys(entries)
    ensures SortedByKey(Sort(entries))
  {
    if entries != [] {
      SortSorted(entries[1..]);
      forall x | x in Sort(entries[1..]) ensures x.0 != entries[0].0 {
        assert x in entries[1..];
      }
      InsertSorted(entries[0], Sort(entries[1..]));
    }
  }

  ghost predicate Increasing(ks: seq<Text>) {
    forall i, j | 0 <= i < j < |ks| :: Less(ks[i], ks[j])
  }

  /** A set of keys has one sorted list. */
  lemma {:induction false} SortedListUnique(a: seq<Text>, b: seq<Text>)
    requires Increasing(a) && Increasing(b)
    requires forall k :: k in a <==> k in b
    ensures a == b
  {
    assert b != [] ==> b[0] in b;
    if a != [] {
      assert a[0] in a && a[0] in b;
      assert b[0] in b && b[0] in a;
      if a[0] != b[0] {
        LessTrichotomy(a[0], b[0]);
        assert false;
      }
      forall k ensures k in a[1..] <==> k in b[1..] {
        TailMember(a, k);
        TailMember(b, k);
      }
      SortedListUnique(a[1..], b[1..]);
      assert a == [a[0]] + a[1..] && b == [b[0]] + b[1..];
    }
  }

  lemma TailMember(a: seq<Text>, k: Text)
    requires a != [] && Increasing(a)
    ensures k in a[1..] <==> k in a && k != a[0]
  {
    if k in a[1..] {
      var i :| 1 <= i < |a| && a[i] == k;
      LessTrichotomy(a[0], a[i]);
    }
  }

  lemma KeptSorted(entries: Entries)
    requires DistinctKeys(entries)
    ensures SortedByKey(Kept(entries)) && Increasing(Keys(Kept(entries)))
    ensures forall k :: k in Keys(Kept(entries)) <==> HasKey(entries, k)
  {
    DefinedDistinct(entries);
    SortSorted(Defined(entries));
    var kept := Kept(entries);
    forall k ensures k in Keys(kept) <==> HasKey(entries, k) {
      if k in Keys(kept) {
        var i :| 0 <= i < |kept| && Keys(kept)[i] == k;
        assert kept[i] in kept;
      }
      if HasKey(entries, k) {
        var e :| e in entries && e.0 == k && !e.1.Undefined?;
        assert e in kept;
        var i :| 0 <= i < |kept| && kept[i] == e;
        assert Keys(kept)[i] == k;
      }
    }
  }

  lemma {:induction false} SameNorm(v: Value, w: Value)
    requires Valid(v) && Valid(w)
    ensures Same(v, w) <==> Norm(v) == Norm(w)
    decreases v
  {
    match v
    case Arr(items) =>
      if w.Arr? && |items| == |w.items| {
        forall i | 0 <= i < |items| ensures Same(items[i], w.items[i]) <==> Norm(items[i]) == Norm(w.items[i]) {
          SameNorm(items[i], w.items[i]);
        }
        var ni, nw := Norm(v).items, Norm(w).items;
        assert forall i | 0 <= i < |items| :: ni[i] == Norm(items[i]) && nw[i] == Norm(w.items[i]);
        if Same(v, w) {
          assert ni == nw;
        }
      } else if w.Arr? {
        assert |Norm(v).items| != |Norm(w).items|;
      }
    case Obj(entries) =>
      if w.Obj? {
        forall e, f | e in entries && f in w.entries ensures Same(e.1, f.1) <==> Norm(e.1) == Norm(f.1) {
          SameNorm(e.1, f.1);
        }
        if Same(v, w) {
          SameToNorm(entries, w.entries);
        }
        if Norm(v) == Norm(w) {
          NormToSame(entries, w.entries);
        }
      }
    case _ =>
  }

  lemma NormMembers(entries: Entries)
    ensures Norm(Obj(entries)).Obj? && |Norm(Obj(entries)).members| == |Kept(entries)|
    ensures forall i | 0 <= i < |Kept(entries)| ::
      Norm(Obj(entries)).members[i] == (Kept(entries)[i].0, Norm(Kept(entries)[i].1))
  {}

  lemma SameToNorm(a: Entries, b: Entries)
    requires DistinctKeys(a) && DistinctKeys(b)
    requires forall e, f | e in a && f in b :: Same(e.1, f.1) <==> Norm(e.1) == Norm(f.1)
    requires Same(Obj(a), Obj(b))
    ensures Norm(Obj(a)) == Norm(Obj(b))
  {
    KeptSorted(a);
    KeptSorted(b);
    var ka, kb := Kept(a), Kept(b);
    SortedListUnique(Keys(ka), Keys(kb));
    assert |ka| == |Keys(ka)| == |kb|;
    NormMembers(a);
    NormMembers(b);
    forall i | 0 <= i < |ka| ensures ka[i].0 == kb[i].0 && Norm(ka[i].1) == Norm(kb[i].1) {
      assert Keys(ka)[i] == Keys(kb)[i];
      assert ka[i] in ka && kb[i] in kb;
      assert Same(ka[i].1, kb[i].1);
    }
    hide Norm, Kept;
    assert Norm(Obj(a)).members == Norm(Obj(b)).members;
  }

  lemma NormToSame(a: Entries, b: Entries)
    requires DistinctKeys(a) && DistinctKeys(b)
    requires forall e, f | e in a && f in b :: Same(e.1, f.1) <==> Norm(e.1) == Norm(f.1)
    requires Norm(Obj(a)) == Norm(Obj(b))
    ensures Same(Obj(a), Obj(b))
  {
    KeptSorted(a);
    KeptSorted(b);
    NormMembers(a);
    NormMembers(b);
    PairedNorms(a, b);
    hide Norm, Kept;
    forall e, f | e in a && f in b && e.0 == f.0 && !e.1.Undefined? && !f.1.Undefined? ensures Same(e.1, f.1) {
      EntriesMeet(a, b, e, f);
    }
  }

  lemma PairedNorms(a: Entries, b: Entries)
    requires Norm(Obj(a)) == Norm(Obj(b))
    ensures |Kept(a)| == |Kept(b)| && Keys(Kept(a)) == Keys(Kept(b))
    ensures forall i | 0 <= i < |Kept(a)| :: Norm(Kept(a)[i].1) == Norm(Kept(b)[i].1)
  {
    NormMembers(a);
    NormMembers(b);
    var ms := Norm(Obj(a)).members;
    hide Norm, Kept;
    assert forall i | 0 <= i < |ms| :: ms[i] == (Kept(a)[i].0, Norm(Kept(a)[i].1)) == (Kept(b)[i].0, Norm(Kept(b)[i].1));
  }

  lemma EntriesMeet(a: Entries, b: Entries, e: (Text, Value), f: (Text, Value))
    requires DistinctKeys(a) && DistinctKeys(b)
    requires Keys(Kept(a)) == Keys(Kept(b)) && |Kept(a)| == |Kept(b)|
    requires forall i | 0 <= i < |Kept(a)| :: Norm(Kept(a)[i].1) == Norm(Kept(b)[i].1)
    requires e in a && f in b && e.0 == f.0 && !e.1.Undefined? && !f.1.Undefined?
    ensures Norm(e.1) == Norm(f.1)
  {
    KeptSorted(b);
    var ka, kb := Kept(a), Kept(b);
    assert e in ka && f in kb;
    hide Norm, Kept;
    var i :| 0 <= i < |ka| && ka[i] == e;
    var j :| 0 <= j < |kb| && kb[j] == f;
    assert Keys(ka)[i] == Keys(kb)[i];
    SortedOnce(kb, i, j);
  }

  lemma SortedOnce(kept: Entries, i: nat, j: nat)
    requires SortedByKey(kept) && i < |kept| && j < |kept| && kept[i].0 == kept[j].0
    ensures i == j
  {
    LessTrichotomy(kept[i].0, kept[j].0);
  }

  /** Two values have one canonical text exactly when they are equal up to key order. */
  lemma CanonicalUnambiguous(v: Value, w: Value)
    requires Valid(v) && Valid(w)
    ensures Canonical(v) == Canonical(w) <==> Same(v, w)
  {
    CanonicalPrintsNorm(v);
    CanonicalPrintsNorm(w);
    NormWellFormed(v);
    NormWellFormed(w);
    SameNorm(v, w);
    if Canonical(v) == Canonical(w) {
      Json.PrintInjective(Norm(v), Norm(w));
    }
  }

  // The fingerprint's preimage

  predicate IsVolatile(claim: Text) {
    claim in [Lit("exp"), Lit("expiresAtMs"), Lit("iat"), Lit("jti"), Lit("nbf")]
  }

  /** The claims that say who a credential names: all but the volatile ones. */
  function Stable(claims: Entries): (kept: Entries)
    ensures forall e :: e in kept <==> e in claims && !IsVolatile(e.0)
  {
    if claims == [] then []
    else if IsVolatile(claims[0].0) then Stable(claims[1..])
    else [claims[0]] + Stable(claims[1..])
  }

  function StableOf(identity: Option<Entries>): Entries {
    Stable(if identity.Some? then identity.value else [])
  }

  function CanonicalClaims(identity: Option<Entries>): Text {
    var stable := StableOf(identity);
    if stable == [] then [] else Canonical(Obj(stable))
  }

  const BAR: unit := 124

  /** `JSON.stringify(userId ?? null)`. */
  function UserText(userId: Option<Text>): Text {
    if userId.Some? then Json.Quote(userId.value) else Json.NULL
  }

  /** The text `claimsFingerprint` encodes and hashes. */
  function Preimage(userId: Option<Text>, identity: Option<Entries>): Text {
    UserText(userId) + [BAR] + CanonicalClaims(identity)
  }

  lemma {:induction false} StableDistinct(claims: Entries)
    requires DistinctKeys(claims)
    ensures DistinctKeys(Stable(claims))
  {
    if claims != [] {
      StableDistinct(claims[1..]);
      var rest := Stable(claims[1..]);
      forall j | 0 <= j < |rest| ensures rest[j].0 != claims[0].0 {
        assert rest[j] in rest;
      }
    }
  }

  lemma UserIdDelimits(u: Option<Text>, x: Text, v: Option<Text>, y: Text)
    requires UserText(u) + [BAR] + x == UserText(v) + [BAR] + y
    ensures u == v && x == y
  {
    hide Json.Quote, UserText;
    UserTextStart(u);
    UserTextStart(v);
    assert UserText(u)[0] == (UserText(u) + [BAR] + x)[0] == (UserText(v) + [BAR] + y)[0] == UserText(v)[0];
    if u.Some? {
      QuotedBar(u.value, x, v.value, y);
    } else {
      NullBar(x, y);
    }
  }

  lemma QuotedBar(a: Text, x: Text, b: Text, y: Text)
    requires UserText(Some(a)) + [BAR] + x == UserText(Some(b)) + [BAR] + y
    ensures a == b && x == y
  {
    hide Json.Quote;
    assert Json.Quote(a) + [BAR] + x == Json.Quote(a) + ([BAR] + x);
    assert Json.Quote(b) + [BAR] + y == Json.Quote(b) + ([BAR] + y);
    Json.QuoteSelfDelimiting(a, [BAR] + x, b, [BAR] + y);
    assert ([BAR] + x)[1..] == x && ([BAR] + y)[1..] == y;
  }

  lemma NullBar(x: Text, y: Text)
    requires UserText(None) + [BAR] + x == UserText(None) + [BAR] + y
    ensures x == y
  {
    assert (UserText(None) + [BAR] + x)[5..] == x && (UserText(None) + [BAR] + y)[5..] == y;
  }

  lemma UserTextStart(u: Option<Text>)
    ensures UserText(u) != [] && UserText(u)[0] == if u.Some? then Json.QUOTE else 110
  {}

  ghost predicate ValidClaims(identity: Option<Entries>) {
    identity.Some? ==> Valid(Obj(identity.value))
  }

  /** Two fingerprints hash one text exactly when the user and the non-volatile claims are equal,
      except that claims that are all undefined (`{}` is hashed) differ from no claims (nothing is). */
  lemma PreimageExact(u: Option<Text>, a: Option<Entries>, v: Option<Text>, b: Option<Entries>)
    requires ValidClaims(a) && ValidClaims(b)
    ensures Preimage(u, a) == Preimage(v, b) <==>
      u == v && Same(Obj(StableOf(a)), Obj(StableOf(b))) && (StableOf(a) == [] <==> StableOf(b) == [])
  {
    if a.Some? { StableDistinct(a.value); }
    if b.Some? { StableDistinct(b.value); }
    var sa, sb := Obj(StableOf(a)), Obj(StableOf(b));
    assert Valid(sa) && Valid(sb);
    CanonicalUnambiguous(sa, sb);
    hide Same, Canonical;
    if Preimage(u, a) == Preimage(v, b) {
      UserIdDelimits(u, CanonicalClaims(a), v, CanonicalClaims(b));
    }
    CanonicalStart(sa.entries);
    CanonicalStart(sb.entries);
  }

  lemma CanonicalStart(entries: Entries)
    ensures Canonical(Obj(entries)) != []
  {}

  /** The exception is real: one undefined claim and no claims at all are the same claims, hashed apart. */
  lemma UndefinedClaimDiffers()
    ensures var claim := [([120 as unit], Undefined)];
      Same(Obj(claim), Obj([])) && Preimage(None, Some(claim)) != Preimage(None, None)
  {
    var claim: Entries := [([120], Undefined)];
    assert !IsVolatile(claim[0].0) by {
      assert |Lit("exp")| == 3 && |Lit("expiresAtMs")| == 11 && |Lit("iat")| == 3 && |Lit("jti")| == 3 && |Lit("nbf")| == 3;
    }
    assert Stable(claim[1..]) == [];
    assert Stable(claim) == claim;
    CanonicalStart(claim);
    assert forall k :: !HasKey(claim, k) && !HasKey([], k);
    if Preimage(None, Some(claim)) == Preimage(None, None) {
      UserIdDelimits(None, CanonicalClaims(Some(claim)), None, CanonicalClaims(None));
    }
  }

  // The fingerprint

  /** `claimsFingerprint`. */
  method ClaimsFingerprint(userId: Option<Text>, identity: Option<Entries>) returns (fingerprint: Text)
    ensures fingerprint == Base64.Encode(Fips180.Sha256(Utf8.Encode(Preimage(userId, identity)))[..16])
    ensures |fingerprint| == 22
  {
    var digest := Sha256.Sha256(Utf8.Encode(Preimage(userId, identity)));
    fingerprint := Base64.ToBase64Url(digest[..16]);
    Base64.EncodeShape(digest[..16]);
  }

  lemma PreimageWhole(userId: Option<Text>, identity: Option<Entries>)
    requires ValidClaims(identity)
    ensures Utf8.Whole(Preimage(userId, identity))
  {
    if identity.Some? { StableDistinct(identity.value); }
    var stable := Obj(StableOf(identity));
    assert Valid(stable);
    NormWellFormed(stable);
    CanonicalPrintsNorm(stable);
    hide Canonical, Norm, Json.Quote, Utf8.Whole, Json.Print;
    Utf8.PrintWhole(Norm(stable));
    Utf8.PlainIsWhole([]);
    if userId.Some? {
      Utf8.QuoteWhole(userId.value);
    } else {
      Utf8.PlainIsWhole(Json.NULL);
    }
    Utf8.Separated(UserText(userId), BAR, CanonicalClaims(identity));
  }

  /** What SHA-256 is given is the same bytes exactly when the user and the non-volatile claims are the same, lone
      surrogates included: so equal claims have equal fingerprints, and different ones only by a collision. */
  lemma HashedBytesExact(u: Option<Text>, a: Option<Entries>, v: Option<Text>, b: Option<Entries>)
    requires ValidClaims(a) && ValidClaims(b)
    ensures Utf8.Encode(Preimage(u, a)) == Utf8.Encode(Preimage(v, b)) <==>
      u == v && Same(Obj(StableOf(a)), Obj(StableOf(b))) && (StableOf(a) == [] <==> StableOf(b) == [])
  {
    hide Same, Preimage, Utf8.Encode, Utf8.Whole;
    PreimageExact(u, a, v, b);
    PreimageWhole(u, a);
    PreimageWhole(v, b);
    Utf8.EncodeInjective(Preimage(u, a), Preimage(v, b));
  }
}
