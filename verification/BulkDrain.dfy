/** The client half of the paged bulk row ops (shared/bulk-drain.ts), against a host that answers a page at a
    time while other writers change its rows between round trips. */
module BulkDrain {
  import opened JsText

  /** A row id. Ids are ordered by `Less`; the empty text sorts below every real one. */
  type Id = Text

  datatype Response = Response(count: nat, cursor: Option<Id>, hasMore: bool)

  datatype Outcome = CapHit | Completed

  datatype Result = Result(cursor: Option<Id>, outcome: Outcome, written: nat)

  /** The host's answer to the `n`-th round trip it ever serves. */
  type Query = (nat, Option<Id>) -> Response

  // The loop

  /** A drain of at most `budget` round trips, the first of them the host's `at`-th. */
  function Drained(query: Query, at: nat, budget: nat, after: Option<Id>): Result
    decreases budget
  {
    if budget == 0 then Result(after, CapHit, 0)
    else
      var r := query(at, after);
      if !r.hasMore then Result(None, Completed, r.count)
      else
        var rest := Drained(query, at + 1, budget - 1, r.cursor);
        rest.(written := r.count + rest.written)
  }

  /** How many round trips that drain makes. */
  function Trips(query: Query, at: nat, budget: nat, after: Option<Id>): (n: nat)
    ensures n <= budget
    decreases budget
  {
    if budget == 0 then 0
    else if !query(at, after).hasMore then 1
    else 1 + Trips(query, at + 1, budget - 1, query(at, after).cursor)
  }

  /** `drainBulkOp`. */
  method DrainBulkOp(query: Query, at: nat, maxBatches: int, openCursor: Option<Id>) returns (result: Result)
    ensures result == Drained(query, at, if maxBatches < 0 then 0 else maxBatches, openCursor)
  {
    var after := openCursor;
    var written: nat := 0;
    var outcome := CapHit;
    var batch := 0;
    ghost var budget: nat := if maxBatches < 0 then 0 else maxBatches;
    while batch < maxBatches
      invariant 0 <= batch <= budget && outcome == CapHit
      invariant var rest := Drained(query, at + batch, budget - batch, after);
        Drained(query, at, budget, openCursor) == rest.(written := written + rest.written)
    {
      var result := query(at + batch, after);
      written := written + result.count;
      after := result.cursor;
      if !result.hasMore {
        outcome := Completed;
        break;
      }
      batch := batch + 1;
    }
    result := Result(if outcome == CapHit then after else None, outcome, written);
  }

  /** Drains run one after another, each opened at the cursor the one before it parked, until one completes. */
  function Chained(query: Query, at: nat, caps: seq<nat>, open: Option<Id>): Result
    decreases |caps|
  {
    if caps == [] then Result(open, CapHit, 0)
    else
      var first := Drained(query, at, caps[0], open);
      if first.outcome.Completed? then first
      else
        var rest := Chained(query, at + Trips(query, at, caps[0], open), caps[1..], first.cursor);
        rest.(written := first.written + rest.written)
  }

  // The host

  /** What the `n`-th scan finds: the ids that match when it runs (other writers, and this op's own writes, may have
      changed them since the scan before) and the order an unordered scan happens to visit them in. */
  datatype Host = Host(limit: nat, matching: nat -> set<Id>, visit: nat -> seq<Id>)

  ghost predicate Visits(ids: seq<Id>, matching: set<Id>) {
    |ids| == |matching| && forall id :: id in ids <==> id in matching
  }

  ghost predicate Sound(host: Host) {
    host.limit >= 1 && forall n: nat :: Visits(host.visit(n), host.matching(n))
  }

  ghost predicate IsLeast(id: Id, ids: set<Id>) {
    id in ids && forall other | other in ids :: id == other || Less(id, other)
  }

  lemma LeastExists(ids: set<Id>)
    requires ids != {}
    ensures exists id :: IsLeast(id, ids)
  {
    var x :| x in ids;
    var rest := ids - {x};
    if rest == {} {
      assert ids == {x};
      assert IsLeast(x, ids);
    } else {
      LeastExists(rest);
      var y :| IsLeast(y, rest);
      LessTrichotomy(x, y);
      if Less(x, y) {
        forall other | other in ids ensures x == other || Less(x, other) {
          if other != x && other != y {
            LessTransitive(x, y, other);
          }
        }
        assert IsLeast(x, ids);
      } else {
        assert IsLeast(y, ids);
      }
    }
  }

  /** The `n` smallest ids, in order: `ORDER BY id LIMIT n`. */
  ghost function Smallest(ids: set<Id>, n: nat): (page: seq<Id>)
    ensures |page| <= n && |page| <= |ids|
    ensures |page| == n || |page| == |ids|
    ensures forall id | id in page :: id in ids
    decreases n
  {
    if n == 0 || ids == {} then []
    else
      LeastExists(ids);
      var id :| IsLeast(id, ids);
      [id] + Smallest(ids - {id}, n - 1)
  }

  ghost function Above(ids: set<Id>, after: Id): set<Id> {
    set id | id in ids && Less(after, id)
  }

  /** The rows the `n`-th scan hands to the writer: ordered and above the cursor when there is one, any otherwise. */
  ghost function Selected(host: Host, n: nat, after: Option<Id>): seq<Id> {
    match after
    case Some(a) => Smallest(Above(host.matching(n), a), host.limit)
    case None => if |host.visit(n)| <= host.limit then host.visit(n) else host.visit(n)[..host.limit]
  }

  ghost function Candidates(host: Host, n: nat, after: Option<Id>): set<Id> {
    match after
    case Some(a) => Above(host.matching(n), a)
    case None => host.matching(n)
  }

  /** The host's contract: one page a call, `hasMore` from one row over, and a cursor only when one was sent. */
  ghost predicate Serves(query: Query, host: Host) {
    forall n, after :: query(n, after) ==
      var page := Selected(host, n, after);
      Response(|page|, if after.None? || page == [] then None else Some(page[|page| - 1]), |Candidates(host, n, after)| > host.limit)
  }

  /** The rows a drain writes, in order. */
  ghost function Written(query: Query, host: Host, at: nat, budget: nat, after: Option<Id>): seq<Id>
    decreases budget
  {
    if budget == 0 then []
    else
      Selected(host, at, after) +
      if !query(at, after).hasMore then [] else Written(query, host, at + 1, budget - 1, query(at, after).cursor)
  }

  ghost function ChainWritten(query: Query, host: Host, at: nat, caps: seq<nat>, open: Option<Id>): seq<Id>
    decreases |caps|
  {
    if caps == [] then []
    else
      var first := Drained(query, at, caps[0], open);
      Written(query, host, at, caps[0], open) +
      if first.outcome.Completed? then []
      else ChainWritten(query, host, at + Trips(query, at, caps[0], open), caps[1..], first.cursor)
  }

  // Ordered drains

  ghost predicate Increasing(ids: seq<Id>) {
    forall i, j | 0 <= i < j < |ids| :: Less(ids[i], ids[j])
  }

  predicate AtMost(a: Id, b: Id) {
    a == b || Less(a, b)
  }

  /** What a stretch of an ordered drain has done: it wrote ids above `from`, rising, up to `upto` — or to the
      end — and passed over no id in `steady`. */
  ghost predicate Swept(written: seq<Id>, from: Id, upto: Option<Id>, steady: set<Id>) {
    && Increasing(written) && (forall id | id in written :: Less(from, id))
    && (upto.Some? ==> AtMost(from, upto.value) && forall id | id in written :: AtMost(id, upto.value))
    && forall id | id in steady && Less(from, id) :: id in written || (upto.Some? && Less(upto.value, id))
  }

  lemma SweptNothing(from: Id, steady: set<Id>)
    ensures Swept([], from, Some(from), steady)
  {}

  lemma SweptOn(a: seq<Id>, b: seq<Id>, from: Id, mid: Id, upto: Option<Id>, steady: set<Id>)
    requires Swept(a, from, Some(mid), steady) && Swept(b, mid, upto, steady)
    ensures Swept(a + b, from, upto, steady)
  {
    var all := a + b;
    forall i, j | 0 <= i < j < |all| ensures Less(all[i], all[j]) {
      if i < |a| <= j {
        assert a[i] in a && b[j - |a|] in b;
        Between(a[i], mid, b[j - |a|]);
      }
    }
    forall id | id in all ensures Less(from, id) {
      if id in b {
        Between(from, mid, id);
      }
    }
    if upto.Some? {
      AtMostOn(from, mid, upto.value);
      forall id | id in all ensures AtMost(id, upto.value) {
        if id in a {
          AtMostOn(id, mid, upto.value);
        }
      }
    }
  }

  lemma Between(a: Id, mid: Id, b: Id)
    requires AtMost(a, mid) && Less(mid, b)
    ensures Less(a, b)
  {
    if a != mid {
      LessTransitive(a, mid, b);
    }
  }

  lemma AtMostOn(a: Id, mid: Id, b: Id)
    requires AtMost(a, mid) && AtMost(mid, b)
    ensures AtMost(a, b)
  {
    if a != mid && mid != b {
      LessTransitive(a, mid, b);
    }
  }

  /** The smallest ids rise, and the ids left out are above the last of them. */
  lemma {:induction false} SmallestSweeps(ids: set<Id>, n: nat)
    ensures Fills(Smallest(ids, n), ids, n)
    decreases n
  {
    hide *;
    if n == 0 || ids == {} {
      FillsNothing(ids, n);
    } else {
      var id := SmallestHead(ids, n);
      SmallestSweeps(ids - {id}, n - 1);
      SmallestStep(ids, n, id, Smallest(ids - {id}, n - 1));
    }
  }

  /** What a scan ordered by id and cut at `n` rows returns. */
  ghost predicate Fills(page: seq<Id>, ids: set<Id>, n: nat) {
    && Increasing(page) && (forall id | id in page :: id in ids)
    && (|ids| <= n ==> forall id | id in ids :: id in page)
    && (page == [] ==> n == 0 || ids == {})
    && (page != [] ==> forall id | id in ids && id !in page :: Less(page[|page| - 1], id))
    && (page != [] ==> forall id | id in page :: AtMost(id, page[|page| - 1]))
  }

  lemma FillsNothing(ids: set<Id>, n: nat)
    requires n == 0 || ids == {}
    ensures Smallest(ids, n) == [] && Fills(Smallest(ids, n), ids, n)
  {}

  lemma SmallestHead(ids: set<Id>, n: nat) returns (id: Id)
    requires n > 0 && ids != {}
    ensures IsLeast(id, ids) && Smallest(ids, n) == [id] + Smallest(ids - {id}, n - 1)
  {
    hide Less;
    LeastExists(ids);
    id := Smallest(ids, n)[0];
    assert Smallest(ids, n)[1..] == Smallest(ids - {id}, n - 1);
  }

  lemma SmallestStep(ids: set<Id>, n: nat, id: Id, tail: seq<Id>)
    requires n > 0 && IsLeast(id, ids) && Fills(tail, ids - {id}, n - 1)
    ensures Fills([id] + tail, ids, n)
  {
    hide Less;
    var page := [id] + tail;
    assert forall j | 0 <= j < |tail| :: tail[j] in tail;
    assert forall j | 1 <= j < |page| :: page[j] == tail[j - 1];
    assert |ids - {id}| == |ids| - 1;
    assert id == page[0] && id in page;
  }

  /** One ordered page sweeps from its cursor to its last id, or to the end when nothing is left over. */
  lemma PageSweeps(query: Query, host: Host, n: nat, a: Id, steady: set<Id>)
    requires Serves(query, host) && Sound(host) && forall id | id in steady && Less(a, id) :: id in host.matching(n)
    ensures var r := query(n, Some(a));
      (r.hasMore ==> r.cursor.Some?)
      && Swept(Selected(host, n, Some(a)), a, if r.hasMore then r.cursor else None, steady)
  {
    hide Smallest, Less, Swept;
    var ids := Above(host.matching(n), a);
    SmallestSweeps(ids, host.limit);
    FilledSweeps(Smallest(ids, host.limit), ids, host.limit, a, steady * ids);
    OnlyAbove(Smallest(ids, host.limit), ids, a, steady,
      if query(n, Some(a)).hasMore then query(n, Some(a)).cursor else None);
  }

  lemma FilledSweeps(page: seq<Id>, ids: set<Id>, n: nat, a: Id, steady: set<Id>)
    requires n >= 1 && Fills(page, ids, n) && steady <= ids && forall id | id in ids :: Less(a, id)
    ensures |ids| > n ==> page != []
    ensures Swept(page, a, if |ids| > n then Some(page[|page| - 1]) else None, steady)
  {
    hide Less;
    if page != [] {
      assert page[|page| - 1] in page;
    }
  }

  /** Ids at or below the cursor are nobody's business. */
  lemma OnlyAbove(page: seq<Id>, ids: set<Id>, a: Id, steady: set<Id>, upto: Option<Id>)
    requires Swept(page, a, upto, steady * ids) && forall id | id in steady && Less(a, id) :: id in ids
    ensures Swept(page, a, upto, steady)
  {
    hide Less, Increasing, AtMost;
  }

  /** The id matches at every scan of the drain opened below it: until it is written, that is. What becomes of it
      afterwards, the op's own write included, does not matter. */
  ghost predicate Waits(query: Query, host: Host, at: nat, budget: nat, after: Option<Id>, id: Id)
    decreases budget
  {
    budget > 0 ==>
      && (after.Some? && Less(after.value, id) ==> id in host.matching(at))
      && (query(at, after).hasMore ==> Waits(query, host, at + 1, budget - 1, query(at, after).cursor, id))
  }

  ghost predicate AllWait(query: Query, host: Host, at: nat, budget: nat, after: Option<Id>, ids: set<Id>) {
    forall id | id in ids :: Waits(query, host, at, budget, after, id)
  }

  lemma AllWaitStep(query: Query, host: Host, at: nat, budget: nat, a: Id, ids: set<Id>)
    requires budget > 0 && AllWait(query, host, at, budget, Some(a), ids)
    ensures forall id | id in ids && Less(a, id) :: id in host.matching(at)
    ensures query(at, Some(a)).hasMore ==> AllWait(query, host, at + 1, budget - 1, query(at, Some(a)).cursor, ids)
  {
    hide Less;
  }

  lemma {:induction false} DrainSweeps(query: Query, host: Host, at: nat, budget: nat, a: Id, steady: set<Id>)
    requires Serves(query, host) && Sound(host) && AllWait(query, host, at, budget, Some(a), steady)
    ensures var result := Drained(query, at, budget, Some(a));
      (result.outcome.CapHit? ==> result.cursor.Some?)
      && Swept(Written(query, host, at, budget, Some(a)), a, if result.outcome.CapHit? then result.cursor else None, steady)
    decreases budget
  {
    hide Serves, Sound, Swept, Selected, AllWait, Less;
    if budget == 0 {
      SweptNothing(a, steady);
    } else {
      AllWaitStep(query, host, at, budget, a, steady);
      PageSweeps(query, host, at, a, steady);
      var r := query(at, Some(a));
      var page := Selected(host, at, Some(a));
      if r.hasMore {
        DrainSweeps(query, host, at + 1, budget - 1, r.cursor.value, steady);
        var result := Drained(query, at + 1, budget - 1, r.cursor);
        SweptOn(page, Written(query, host, at + 1, budget - 1, r.cursor), a, r.cursor.value,
          if result.outcome.CapHit? then result.cursor else None, steady);
      } else {
        assert page + [] == page;
      }
    }
  }

  /** What a drain reports. `written` counts the rows written; `completed` comes without a cursor, and only when the host
      ran out before the cap did; a capped ordered drain parks the last id it wrote. */
  lemma {:induction false} DrainReports(query: Query, host: Host, at: nat, budget: nat, after: Option<Id>)
    requires Serves(query, host) && Sound(host)
    ensures var result, written := Drained(query, at, budget, after), Written(query, host, at, budget, after);
      && result.written == |written|
      && (result.outcome.Completed? ==> result.cursor.None?)
      && (result.outcome.CapHit? ==> Trips(query, at, budget, after) == budget)
      && (result.outcome.CapHit? ==>
        if after.None? || budget == 0 then result.cursor == after
        else written != [] && result.cursor == Some(written[|written| - 1]))
    decreases budget
  {
    hide Selected, Candidates, Serves, Sound;
    if budget > 0 {
      PageAnswers(query, host, at, after);
      if query(at, after).hasMore {
        DrainReports(query, host, at + 1, budget - 1, query(at, after).cursor);
      }
    }
  }

  lemma PageAnswers(query: Query, host: Host, at: nat, after: Option<Id>)
    requires Serves(query, host) && Sound(host)
    ensures var r, page := query(at, after), Selected(host, at, after);
      && r.count == |page| && (after.None? ==> r.cursor.None?)
      && (after.Some? && page != [] ==> r.cursor == Some(page[|page| - 1]))
      && (after.Some? && r.hasMore ==> page != [])
  {}

  /** And what a chain of them adds up to. */
  lemma {:induction false} ChainReports(query: Query, host: Host, at: nat, caps: seq<nat>, open: Option<Id>)
    requires Serves(query, host) && Sound(host)
    ensures var result := Chained(query, at, caps, open);
      result.written == |ChainWritten(query, host, at, caps, open)| && (result.outcome.Completed? ==> result.cursor.None?)
    decreases |caps|
  {
    hide Serves, Sound, Written, Drained, Trips;
    if caps != [] {
      DrainReports(query, host, at, caps[0], open);
      var first := Drained(query, at, caps[0], open);
      if first.outcome.CapHit? {
        ChainReports(query, host, at + Trips(query, at, caps[0], open), caps[1..], first.cursor);
      }
    }
  }

  /** The round trips of a chain. */
  function ChainTrips(query: Query, at: nat, caps: seq<nat>, open: Option<Id>): nat
    decreases |caps|
  {
    if caps == [] then 0
    else
      var first := Drained(query, at, caps[0], open);
      var trips := Trips(query, at, caps[0], open);
      trips + if first.outcome.Completed? then 0 else ChainTrips(query, at + trips, caps[1..], first.cursor)
  }

  /** The same over a chain of drains. */
  ghost predicate WaitsAlong(query: Query, host: Host, at: nat, caps: seq<nat>, open: Option<Id>, id: Id)
    decreases |caps|
  {
    caps != [] ==>
      var first := Drained(query, at, caps[0], open);
      && Waits(query, host, at, caps[0], open, id)
      && (first.outcome.CapHit? ==> WaitsAlong(query, host, at + Trips(query, at, caps[0], open), caps[1..], first.cursor, id))
  }

  ghost predicate AllWaitAlong(query: Query, host: Host, at: nat, caps: seq<nat>, open: Option<Id>, ids: set<Id>) {
    forall id | id in ids :: WaitsAlong(query, host, at, caps, open, id)
  }

  lemma AllWaitAlongStep(query: Query, host: Host, at: nat, caps: seq<nat>, open: Option<Id>, ids: set<Id>)
    requires caps != [] && AllWaitAlong(query, host, at, caps, open, ids)
    ensures AllWait(query, host, at, caps[0], open, ids)
    ensures var first := Drained(query, at, caps[0], open);
      first.outcome.CapHit? ==> AllWaitAlong(query, host, at + Trips(query, at, caps[0], open), caps[1..], first.cursor, ids)
  {
    hide Waits, Drained, Trips;
  }

  lemma {:induction false} ChainSweeps(query: Query, host: Host, at: nat, caps: seq<nat>, a: Id, steady: set<Id>)
    requires Serves(query, host) && Sound(host) && AllWaitAlong(query, host, at, caps, Some(a), steady)
    ensures var result := Chained(query, at, caps, Some(a));
      (result.outcome.CapHit? ==> result.cursor.Some?)
      && Swept(ChainWritten(query, host, at, caps, Some(a)), a, if result.outcome.CapHit? then result.cursor else None, steady)
    decreases |caps|
  {
    hide Serves, Sound, Swept, Drained, Trips, Written, AllWait, AllWaitAlong;
    if caps == [] {
      SweptNothing(a, steady);
    } else {
      AllWaitAlongStep(query, host, at, caps, Some(a), steady);
      DrainSweeps(query, host, at, caps[0], a, steady);
      var first := Drained(query, at, caps[0], Some(a));
      var page := Written(query, host, at, caps[0], Some(a));
      if first.outcome.CapHit? {
        var next := at + Trips(query, at, caps[0], Some(a));
        ChainSweeps(query, host, next, caps[1..], first.cursor.value, steady);
        var result := Chained(query, next, caps[1..], first.cursor);
        SweptOn(page, ChainWritten(query, host, next, caps[1..], first.cursor), a, first.cursor.value,
          if result.outcome.CapHit? then result.cursor else None, steady);
      } else {
        assert page + [] == page;
      }
    }
  }

  lemma {:induction false} IncreasingOnce(ids: seq<Id>, id: Id)
    requires Increasing(ids)
    ensures multiset(ids)[id] == if id in ids then 1 else 0
  {
    if ids != [] {
      var last := |ids| - 1;
      IncreasingOnce(ids[..last], id);
      assert ids == ids[..last] + [ids[last]];
      if id in ids[..last] {
        var i :| 0 <= i < last && ids[i] == id;
        LessTrichotomy(ids[i], ids[last]);
      }
    }
  }

  /** Exactly once under interference: a chain of capped drains reopened at the parked cursors that ends completed has
      written every id above the opening cursor that matched until its turn came, once, and no id twice. It may stop
      matching afterwards, as the rows of a patch that leaves the predicate do. */
  lemma ExactlyOnce(query: Query, host: Host, at: nat, caps: seq<nat>, a: Id, id: Id)
    requires Serves(query, host) && Sound(host)
    requires Chained(query, at, caps, Some(a)).outcome.Completed?
    ensures var written := ChainWritten(query, host, at, caps, Some(a));
      multiset(written)[id] <= 1 && (multiset(written)[id] == 1 ==> Less(a, id))
      && (Less(a, id) && WaitsAlong(query, host, at, caps, Some(a), id) ==> multiset(written)[id] == 1)
  {
    var written := ChainWritten(query, host, at, caps, Some(a));
    assert AllWaitAlong(query, host, at, caps, Some(a), {});
    ChainSweeps(query, host, at, caps, a, {});
    hide ChainWritten, Chained, Serves, Sound, WaitsAlong;
    if WaitsAlong(query, host, at, caps, Some(a), id) {
      assert AllWaitAlong(query, host, at, caps, Some(a), {id});
      ChainSweeps(query, host, at, caps, a, {id});
    }
    IncreasingOnce(written, id);
  }

  /** The id matches at every scan of a stretch. */
  ghost predicate Steady(host: Host, id: Id, at: nat, trips: nat) {
    forall n | at <= n < at + trips :: id in host.matching(n)
  }

  lemma {:induction false} SteadyWaits(query: Query, host: Host, at: nat, budget: nat, after: Option<Id>, id: Id)
    requires Steady(host, id, at, Trips(query, at, budget, after))
    ensures Waits(query, host, at, budget, after, id)
    decreases budget
  {
    hide Less;
    if budget > 0 && query(at, after).hasMore {
      SteadyWaits(query, host, at + 1, budget - 1, query(at, after).cursor, id);
    }
  }

  lemma {:induction false} SteadyWaitsAlong(query: Query, host: Host, at: nat, caps: seq<nat>, open: Option<Id>, id: Id)
    requires Steady(host, id, at, ChainTrips(query, at, caps, open))
    ensures WaitsAlong(query, host, at, caps, open, id)
    decreases |caps|
  {
    hide Waits, Drained, Trips;
    if caps != [] {
      SteadyWaits(query, host, at, caps[0], open, id);
      var first := Drained(query, at, caps[0], open);
      if first.outcome.CapHit? {
        SteadyWaitsAlong(query, host, at + Trips(query, at, caps[0], open), caps[1..], first.cursor, id);
      }
    }
  }

  /** In particular every id above the opening cursor that matched throughout is written once. */
  lemma ThroughoutOnce(query: Query, host: Host, at: nat, caps: seq<nat>, a: Id, id: Id)
    requires Serves(query, host) && Sound(host)
    requires Chained(query, at, caps, Some(a)).outcome.Completed?
    requires Less(a, id) && Steady(host, id, at, ChainTrips(query, at, caps, Some(a)))
    ensures multiset(ChainWritten(query, host, at, caps, Some(a)))[id] == 1
  {
    hide Less, Chained, ChainWritten, ChainTrips, Serves, Sound, Steady, WaitsAlong;
    SteadyWaitsAlong(query, host, at, caps, Some(a), id);
    ExactlyOnce(query, host, at, caps, a, id);
  }

  // Cursor-less drains

  function Ids(s: seq<Id>): set<Id> {
    set id | id in s
  }

  /** Nobody else writes: each scan finds what the one before left. */
  ghost predicate OnlyDeletes(host: Host) {
    forall n: nat :: host.matching(n + 1) == host.matching(n) - Ids(Selected(host, n, None))
  }

  /** An unordered page takes the whole match set, or a full page of distinct rows out of it. */
  lemma PageDeletes(query: Query, host: Host, n: nat)
    requires Serves(query, host) && Sound(host) && OnlyDeletes(host)
    ensures var r := query(n, None);
      r.cursor.None? && |host.matching(n + 1)| + r.count == |host.matching(n)|
      && (!r.hasMore ==> host.matching(n + 1) == {})
  {
    var ids, page := host.visit(n), Selected(host, n, None);
    assert Visits(ids, host.matching(n));
    assert host.matching(n + 1) == host.matching(n) - Ids(page);
    assert Ids(ids) == host.matching(n);
    VisitedOnce(ids);
    TakeCount(ids, |page|);
    assert ids[..|page|] == page;
    CountRemoved(host.matching(n), Ids(page));
  }

  lemma {:induction false} VisitedOnce(ids: seq<Id>)
    requires |Ids(ids)| >= |ids|
    ensures forall i, j | 0 <= i < j < |ids| :: ids[i] != ids[j]
  {
    if ids != [] {
      var last := |ids| - 1;
      assert Ids(ids) == Ids(ids[..last]) + {ids[last]};
      IdsAtMost(ids[..last]);
      assert ids[last] !in Ids(ids[..last]);
      VisitedOnce(ids[..last]);
    }
  }

  lemma {:induction false} IdsAtMost(ids: seq<Id>)
    ensures |Ids(ids)| <= |ids|
  {
    if ids != [] {
      var last := |ids| - 1;
      IdsAtMost(ids[..last]);
      assert Ids(ids) == Ids(ids[..last]) + {ids[last]};
    }
  }

  lemma {:induction false} TakeCount(ids: seq<Id>, n: nat)
    requires n <= |ids| && forall i, j | 0 <= i < j < |ids| :: ids[i] != ids[j]
    ensures |Ids(ids[..n])| == n && Ids(ids[..n]) <= Ids(ids)
  {
    if n > 0 {
      TakeCount(ids, n - 1);
      assert ids[..n] == ids[..n - 1] + [ids[n - 1]];
      assert Ids(ids[..n]) == Ids(ids[..n - 1]) + {ids[n - 1]};
    }
  }

  lemma CountRemoved(all: set<Id>, some: set<Id>)
    requires some <= all
    ensures |all - some| + |some| == |all|
  {
    assert all == (all - some) + some;
  }

  /** Without interference nothing is lost: what a delete wrote and what is left add up to what matched, and
      `completed` means nothing is left. */
  lemma {:induction false} DeleteConserves(query: Query, host: Host, at: nat, budget: nat)
    requires Serves(query, host) && Sound(host) && OnlyDeletes(host)
    ensures var result := Drained(query, at, budget, None);
      var left := host.matching(at + Trips(query, at, budget, None));
      result.cursor.None? && |left| + result.written == |host.matching(at)|
      && (result.outcome.Completed? ==> left == {})
    decreases budget
  {
    hide Serves, Sound, OnlyDeletes;
    if budget > 0 {
      PageDeletes(query, host, at);
      if query(at, None).hasMore {
        DeleteConserves(query, host, at + 1, budget - 1);
      }
    }
  }
}
