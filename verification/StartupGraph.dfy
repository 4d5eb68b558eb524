/** The eager-import walk of scripts/check-worker-startup.js: breadth first over static edges, with the
    importer that first reached each module. */
module StartupGraph {
  import opened JsText

  type Path = string

  datatype Edge = Edge(path: Path, dynamic: bool)

  /** A bundle metafile's inputs: the keys in their order, and what each imports. */
  datatype Graph = Graph(order: seq<Path>, imports: map<Path, seq<Edge>>)

  ghost predicate Valid(g: Graph) {
    && (forall path :: path in g.order <==> path in g.imports)
    && forall i, j | 0 <= i < j < |g.order| :: g.order[i] != g.order[j]
  }

  // What the walk is about

  ghost predicate Imported(g: Graph, path: Path) {
    exists importer, edge :: importer in g.imports && edge in g.imports[importer] && edge.path == path
  }

  /** An input nothing imports, statically or dynamically. */
  ghost predicate IsRoot(g: Graph, path: Path) {
    path in g.imports && !Imported(g, path)
  }

  ghost predicate StaticEdge(g: Graph, from: Path, to: Path)
    requires from in g.imports
  {
    exists edge :: edge in g.imports[from] && !edge.dynamic && edge.path == to
  }

  /** A static import of one input by another that is not a leaf. */
  ghost predicate Follows(g: Graph, leaves: Path -> bool, from: Path, to: Path) {
    from in g.imports && to in g.imports && !leaves(from) && StaticEdge(g, from, to)
  }

  /** A chain of followed imports that starts at a root. */
  ghost predicate IsChain(g: Graph, leaves: Path -> bool, chain: seq<Path>) {
    && chain != [] && IsRoot(g, chain[0])
    && forall i | 0 < i < |chain| :: Follows(g, leaves, chain[i - 1], chain[i])
  }

  ghost predicate ChainTo(g: Graph, leaves: Path -> bool, chain: seq<Path>, path: Path) {
    IsChain(g, leaves, chain) && chain[|chain| - 1] == path
  }

  ghost predicate Reachable(g: Graph, leaves: Path -> bool, path: Path) {
    exists chain :: ChainTo(g, leaves, chain, path)
  }

  /** Stopping at more modules reaches no new one. */
  lemma MoreLeavesFewerModules(g: Graph, fewer: Path -> bool, more: Path -> bool, path: Path)
    requires forall p :: fewer(p) ==> more(p)
    requires Reachable(g, more, path)
    ensures Reachable(g, fewer, path)
  {
    var chain :| ChainTo(g, more, chain, path);
    forall i | 0 < i < |chain| ensures Follows(g, fewer, chain[i - 1], chain[i]) {
      assert Follows(g, more, chain[i - 1], chain[i]);
    }
    assert ChainTo(g, fewer, chain, path);
  }

  // The roots

  /** Lines 505-513: every path some edge names, then the inputs that are not among them. */
  method Roots(g: Graph) returns (roots: seq<Path>)
    requires Valid(g)
    ensures forall path :: path in roots <==> IsRoot(g, path)
    ensures forall i, j | 0 <= i < j < |roots| :: roots[i] != roots[j]
  {
    var imported: set<Path> := {};
    for i := 0 to |g.order|
      invariant forall path :: path in imported <==> ImportedBefore(g, i, path)
    {
      var edges := g.imports[g.order[i]];
      ghost var before := imported;
      for j := 0 to |edges|
        invariant forall path :: path in imported <==> path in before || exists k :: 0 <= k < j && edges[k].path == path
      {
        imported := imported + {edges[j].path};
      }
      forall path ensures path in imported <==> ImportedBefore(g, i + 1, path) {
        NextImporter(g, i, path);
      }
    }
    AllImporters(g);
    roots := [];
    for i := 0 to |g.order|
      invariant forall path :: path in roots <==> exists k :: 0 <= k < i && g.order[k] == path && path !in imported
      invariant forall a, b | 0 <= a < b < |roots| :: roots[a] != roots[b]
    {
      if g.order[i] !in imported {
        roots := roots + [g.order[i]];
      }
    }
  }

  ghost predicate ImportedBefore(g: Graph, n: nat, path: Path)
    requires Valid(g) && n <= |g.order|
  {
    exists i, k :: 0 <= i < n && 0 <= k < |g.imports[g.order[i]]| && g.imports[g.order[i]][k].path == path
  }

  lemma NextImporter(g: Graph, n: nat, path: Path)
    requires Valid(g) && n < |g.order|
    ensures ImportedBefore(g, n + 1, path) <==>
      ImportedBefore(g, n, path) || exists k :: 0 <= k < |g.imports[g.order[n]]| && g.imports[g.order[n]][k].path == path
  {
    if exists k :: 0 <= k < |g.imports[g.order[n]]| && g.imports[g.order[n]][k].path == path {
      var k :| 0 <= k < |g.imports[g.order[n]]| && g.imports[g.order[n]][k].path == path;
      assert ImportedBefore(g, n + 1, path);
    }
  }

  lemma AllImporters(g: Graph)
    requires Valid(g)
    ensures forall path :: ImportedBefore(g, |g.order|, path) <==> Imported(g, path)
  {
    forall path ensures ImportedBefore(g, |g.order|, path) <==> Imported(g, path) {
      if Imported(g, path) {
        var importer, edge :| importer in g.imports && edge in g.imports[importer] && edge.path == path;
        var i :| 0 <= i < |g.order| && g.order[i] == importer;
        var k :| 0 <= k < |g.imports[importer]| && g.imports[importer][k] == edge;
        assert g.imports[g.order[i]][k].path == path;
      }
      if ImportedBefore(g, |g.order|, path) {
        var i, k :| 0 <= i < |g.order| && 0 <= k < |g.imports[g.order[i]]| && g.imports[g.order[i]][k].path == path;
        assert g.order[i] in g.imports && g.imports[g.order[i]][k] in g.imports[g.order[i]];
      }
    }
  }

  // The walk

  /** What `walk` returns: the modules seen, and who first reached each (`None` for a root). `depth` counts the imports on the way. */
  datatype Walked = Walked(seen: set<Path>, importer: map<Path, Option<Path>>)

  /** Every module seen hangs off a root by followed imports, one deeper than its importer. */
  ghost predicate Hangs(g: Graph, leaves: Path -> bool, w: Walked, depth: map<Path, nat>) {
    && w.seen <= g.imports.Keys && w.importer.Keys == w.seen == depth.Keys
    && forall path | path in w.seen :: HangsAt(g, leaves, w, depth, path)
  }

  ghost predicate HangsAt(g: Graph, leaves: Path -> bool, w: Walked, depth: map<Path, nat>, path: Path)
    requires path in w.importer && w.importer.Keys == w.seen == depth.Keys
  {
    match w.importer[path]
    case None => IsRoot(g, path) && depth[path] == 0
    case Some(from) => from in w.seen && Follows(g, leaves, from, path) && depth[path] == depth[from] + 1
  }

  /** What `from` imports has been seen, at most one deeper. */
  ghost predicate Expanded(g: Graph, leaves: Path -> bool, w: Walked, depth: map<Path, nat>, from: Path)
    requires from in depth && w.seen == depth.Keys
  {
    forall to | Follows(g, leaves, from, to) :: to in w.seen && depth[to] <= depth[from] + 1
  }

  /** A finished walk. */
  ghost predicate Complete(g: Graph, leaves: Path -> bool, w: Walked, depth: map<Path, nat>) {
    && Hangs(g, leaves, w, depth)
    && (forall path | IsRoot(g, path) :: path in w.seen && depth[path] == 0)
    && forall from | from in w.seen :: Expanded(g, leaves, w, depth, from)
  }

  lemma ChainInit(g: Graph, leaves: Path -> bool, chain: seq<Path>)
    requires IsChain(g, leaves, chain) && |chain| > 1
    ensures IsChain(g, leaves, chain[..|chain| - 1])
    ensures Follows(g, leaves, chain[|chain| - 2], chain[|chain| - 1])
  {
    hide IsRoot, Follows;
    var shorter := chain[..|chain| - 1];
    forall i | 0 < i < |shorter| ensures Follows(g, leaves, shorter[i - 1], shorter[i]) {
      assert Follows(g, leaves, chain[i - 1], chain[i]);
    }
  }

  lemma RootSeen(g: Graph, leaves: Path -> bool, w: Walked, depth: map<Path, nat>, path: Path)
    requires Complete(g, leaves, w, depth) && IsRoot(g, path)
    ensures path in w.seen && path in depth && depth[path] == 0
  {
    hide Expanded, IsRoot, Follows;
  }

  lemma FollowedSeen(g: Graph, leaves: Path -> bool, w: Walked, depth: map<Path, nat>, from: Path, to: Path)
    requires Complete(g, leaves, w, depth) && from in w.seen && Follows(g, leaves, from, to)
    ensures to in w.seen && from in depth && to in depth && depth[to] <= depth[from] + 1
  {
    hide IsRoot, Follows;
    assert w.seen == depth.Keys;
    assert Expanded(g, leaves, w, depth, from);
  }

  /** Any chain ends at a module the walk has seen, no deeper than the chain is long. */
  lemma {:induction false} ChainSeen(g: Graph, leaves: Path -> bool, w: Walked, depth: map<Path, nat>, chain: seq<Path>)
    requires Complete(g, leaves, w, depth) && IsChain(g, leaves, chain)
    ensures var path := chain[|chain| - 1]; path in w.seen && path in depth && depth[path] <= |chain| - 1
    decreases |chain|
  {
    hide Complete, IsRoot, Follows;
    if |chain| > 1 {
      ChainInit(g, leaves, chain);
      ChainSeen(g, leaves, w, depth, chain[..|chain| - 1]);
      FollowedSeen(g, leaves, w, depth, chain[|chain| - 2], chain[|chain| - 1]);
    } else {
      RootSeen(g, leaves, w, depth, chain[0]);
    }
  }

  /** The chain the importers spell. */
  ghost function Trace(g: Graph, leaves: Path -> bool, w: Walked, depth: map<Path, nat>, path: Path): (chain: seq<Path>)
    requires Hangs(g, leaves, w, depth) && path in w.seen
    ensures ChainTo(g, leaves, chain, path) && |chain| == depth[path] + 1
    decreases depth[path]
  {
    assert HangsAt(g, leaves, w, depth, path);
    match w.importer[path]
    case None => [path]
    case Some(from) =>
      var before := Trace(g, leaves, w, depth, from);
      assert forall i | 0 < i < |before| :: Follows(g, leaves, before[i - 1], before[i]);
      before + [path]
  }

  lemma TraceStep(g: Graph, leaves: Path -> bool, w: Walked, depth: map<Path, nat>, path: Path)
    requires Complete(g, leaves, w, depth) && path in w.seen
    ensures Hangs(g, leaves, w, depth) && path in w.importer && path in depth
    ensures match w.importer[path]
      case None => Trace(g, leaves, w, depth, path) == [path] && depth[path] == 0
      case Some(from) =>
        from in w.seen && from in depth && depth[path] == depth[from] + 1
        && Trace(g, leaves, w, depth, path) == Trace(g, leaves, w, depth, from) + [path]
  {
    hide Follows, IsRoot, Expanded, ChainTo;
    assert HangsAt(g, leaves, w, depth, path);
  }

  // The queue

  /** Depths never fall along the queue, and nothing in it is more than one deeper than the module being expanded. */
  ghost predicate Ordered(queue: seq<Path>, index: nat, depth: map<Path, nat>) {
    && (forall path | path in queue :: path in depth)
    && (forall i, j | 0 <= i < j < |queue| :: depth[queue[i]] <= depth[queue[j]])
    && (index < |queue| ==> forall path | path in queue :: depth[path] <= depth[queue[index]] + 1)
  }

  /** The walk when `index` entries of the queue have been expanded. */
  ghost predicate Queued(g: Graph, leaves: Path -> bool, queue: seq<Path>, w: Walked, depth: map<Path, nat>, index: nat) {
    && index <= |queue| && Members(queue, w) && Hangs(g, leaves, w, depth) && RootsSeen(g, w, depth)
    && Ordered(queue, index, depth) && ExpandedTo(g, leaves, queue, w, depth, index)
  }

  /** The queue lists the modules seen, each once. */
  ghost predicate Members(queue: seq<Path>, w: Walked) {
    (forall path :: path in w.seen <==> path in queue) && |w.seen| == |queue|
  }

  ghost predicate RootsSeen(g: Graph, w: Walked, depth: map<Path, nat>) {
    forall path | IsRoot(g, path) :: path in w.seen && path in depth && depth[path] == 0
  }

  ghost predicate ExpandedTo(g: Graph, leaves: Path -> bool, queue: seq<Path>, w: Walked, depth: map<Path, nat>, n: nat) {
    w.seen == depth.Keys && n <= |queue|
    && forall i | 0 <= i < n :: queue[i] in depth && Expanded(g, leaves, w, depth, queue[i])
  }

  function Adding(w: Walked, from: Path, to: Path): Walked {
    Walked(w.seen + {to}, w.importer[to := Some(from)])
  }

  lemma AddHangs(g: Graph, leaves: Path -> bool, w: Walked, depth: map<Path, nat>, from: Path, to: Path)
    requires Hangs(g, leaves, w, depth) && from in w.seen && to !in w.seen && Follows(g, leaves, from, to)
    ensures Hangs(g, leaves, Adding(w, from, to), depth[to := depth[from] + 1])
  {
    var after, deeper := Adding(w, from, to), depth[to := depth[from] + 1];
    assert after.importer.Keys == after.seen == deeper.Keys;
    hide IsRoot, Follows;
    forall path | path in after.seen ensures HangsAt(g, leaves, after, deeper, path) {
      if path != to {
        assert HangsAt(g, leaves, w, depth, path);
      }
    }
  }

  lemma AddOrdered(queue: seq<Path>, index: nat, depth: map<Path, nat>, to: Path)
    requires Ordered(queue, index, depth) && index < |queue| && to !in depth
    ensures Ordered(queue + [to], index, depth[to := depth[queue[index]] + 1])
  {
    var longer, deeper := queue + [to], depth[to := depth[queue[index]] + 1];
    forall i | 0 <= i < |queue| ensures longer[i] != to && deeper[longer[i]] == depth[queue[i]] {
      assert queue[i] in queue;
    }
    forall path | path in longer ensures path in deeper && deeper[path] <= deeper[longer[index]] + 1 {
      assert path in queue || path == to;
    }
    forall i, j | 0 <= i < j < |longer| ensures deeper[longer[i]] <= deeper[longer[j]] {
      assert longer[i] in queue;
    }
  }

  lemma AddExpanded(g: Graph, leaves: Path -> bool, w: Walked, depth: map<Path, nat>, adder: Path, to: Path, d: nat, from: Path)
    requires w.seen == depth.Keys && to !in w.seen && from in depth && Expanded(g, leaves, w, depth, from)
    ensures var deeper := depth[to := d];
      Adding(w, adder, to).seen == deeper.Keys && Expanded(g, leaves, Adding(w, adder, to), deeper, from)
  {
    hide Follows;
  }

  lemma AddQueued(g: Graph, leaves: Path -> bool, queue: seq<Path>, w: Walked, depth: map<Path, nat>, index: nat, from: Path, to: Path)
    requires Queued(g, leaves, queue, w, depth, index) && index < |queue| && from == queue[index] && from in depth
    requires to !in w.seen && Follows(g, leaves, from, to)
    ensures Queued(g, leaves, queue + [to], Adding(w, from, to), depth[to := depth[from] + 1], index)
  {
    hide *;
    var after, deeper, longer := Adding(w, from, to), depth[to := depth[from] + 1], queue + [to];
    QueuedParts(g, leaves, queue, w, depth, index);
    assert to !in depth;
    assert Hangs(g, leaves, after, deeper) by { AddHangs(g, leaves, w, depth, from, to); }
    assert Ordered(longer, index, deeper) by { AddOrdered(queue, index, depth, to); }
    assert Members(longer, after) by { AddMembers(queue, w, from, to); }
    assert RootsSeen(g, after, deeper) by { AddRoots(g, w, depth, from, to); }
    assert ExpandedTo(g, leaves, longer, after, deeper, index) by { AddExpandedTo(g, leaves, queue, w, depth, index, from, to); }
    PartsQueued(g, leaves, longer, after, deeper, index);
  }

  lemma QueuedParts(g: Graph, leaves: Path -> bool, queue: seq<Path>, w: Walked, depth: map<Path, nat>, index: nat)
    requires Queued(g, leaves, queue, w, depth, index)
    ensures Members(queue, w) && Hangs(g, leaves, w, depth) && RootsSeen(g, w, depth)
    ensures Ordered(queue, index, depth) && ExpandedTo(g, leaves, queue, w, depth, index) && w.seen == depth.Keys
    ensures index < |queue| ==> queue[index] in w.seen && queue[index] in depth
  {
    hide HangsAt, IsRoot, Ordered, Expanded;
    assert index < |queue| ==> queue[index] in queue;
  }

  lemma PartsQueued(g: Graph, leaves: Path -> bool, queue: seq<Path>, w: Walked, depth: map<Path, nat>, index: nat)
    requires index <= |queue| && Members(queue, w) && Hangs(g, leaves, w, depth) && RootsSeen(g, w, depth)
    requires Ordered(queue, index, depth) && ExpandedTo(g, leaves, queue, w, depth, index)
    ensures Queued(g, leaves, queue, w, depth, index)
  {
    hide Members, Hangs, RootsSeen, Ordered, ExpandedTo;
  }

  lemma AddRoots(g: Graph, w: Walked, depth: map<Path, nat>, from: Path, to: Path)
    requires RootsSeen(g, w, depth) && to !in w.seen && from in depth
    ensures RootsSeen(g, Adding(w, from, to), depth[to := depth[from] + 1])
  {
    hide IsRoot;
  }

  lemma AddExpandedTo(g: Graph, leaves: Path -> bool, queue: seq<Path>, w: Walked, depth: map<Path, nat>, n: nat, from: Path, to: Path)
    requires ExpandedTo(g, leaves, queue, w, depth, n) && to !in w.seen && from in depth
    ensures ExpandedTo(g, leaves, queue + [to], Adding(w, from, to), depth[to := depth[from] + 1], n)
  {
    hide Expanded;
    var after, deeper, longer := Adding(w, from, to), depth[to := depth[from] + 1], queue + [to];
    assert after.seen == deeper.Keys;
    forall i | 0 <= i < n ensures longer[i] in deeper && Expanded(g, leaves, after, deeper, longer[i]) {
      assert longer[i] == queue[i];
      AddExpanded(g, leaves, w, depth, from, to, depth[from] + 1, queue[i]);
    }
  }

  lemma AddMembers(queue: seq<Path>, w: Walked, from: Path, to: Path)
    requires Members(queue, w) && to !in w.seen
    ensures Members(queue + [to], Adding(w, from, to))
  {}

  lemma NextOrdered(queue: seq<Path>, index: nat, depth: map<Path, nat>)
    requires Ordered(queue, index, depth) && index < |queue|
    ensures Ordered(queue, index + 1, depth)
  {
    if index + 1 < |queue| {
      assert queue[index] in queue && queue[index + 1] in queue;
      assert depth[queue[index]] <= depth[queue[index + 1]];
    }
  }

  lemma NowExpanded(g: Graph, leaves: Path -> bool, queue: seq<Path>, w: Walked, depth: map<Path, nat>, index: nat)
    requires Ordered(queue, index, depth) && index < |queue| && w.seen == depth.Keys && Members(queue, w)
    requires ExpandedTo(g, leaves, queue, w, depth, index)
    requires forall to | Follows(g, leaves, queue[index], to) :: to in w.seen
    ensures ExpandedTo(g, leaves, queue, w, depth, index + 1)
  {
    hide Follows;
    assert queue[index] in queue;
  }

  /** Once what it imports is all seen, the module at `index` is expanded. */
  lemma NextQueued(g: Graph, leaves: Path -> bool, queue: seq<Path>, w: Walked, depth: map<Path, nat>, index: nat)
    requires Queued(g, leaves, queue, w, depth, index) && index < |queue|
    requires forall to | Follows(g, leaves, queue[index], to) :: to in w.seen
    ensures Queued(g, leaves, queue, w, depth, index + 1)
  {
    hide *;
    QueuedParts(g, leaves, queue, w, depth, index);
    NextOrdered(queue, index, depth);
    NowExpanded(g, leaves, queue, w, depth, index);
    PartsQueued(g, leaves, queue, w, depth, index + 1);
  }

  lemma StartQueued(g: Graph, leaves: Path -> bool, roots: seq<Path>)
    requires forall path :: path in roots <==> IsRoot(g, path)
    requires forall i, j | 0 <= i < j < |roots| :: roots[i] != roots[j]
    ensures Queued(g, leaves, roots, Walked((set path | path in roots), map path | path in roots :: None), map path | path in roots :: 0, 0)
  {
    DistinctCount(roots);
    var w := Walked((set path | path in roots), map path | path in roots :: None);
    var depth: map<Path, nat> := map path | path in roots :: 0;
    hide Imported, Follows;
    assert forall path | path in w.seen :: HangsAt(g, leaves, w, depth, path);
  }

  lemma {:induction false} DistinctCount(paths: seq<Path>)
    requires forall i, j | 0 <= i < j < |paths| :: paths[i] != paths[j]
    ensures |set path | path in paths| == |paths|
  {
    if paths != [] {
      var last := |paths| - 1;
      DistinctCount(paths[..last]);
      assert (set path | path in paths) == (set path | path in paths[..last]) + {paths[last]};
    }
  }

  lemma {:induction false} SubsetCount(a: set<Path>, b: set<Path>)
    requires a <= b
    ensures |a| <= |b|
  {
    if a != {} {
      var x :| x in a;
      SubsetCount(a - {x}, b - {x});
    }
  }

  lemma Finished(g: Graph, leaves: Path -> bool, queue: seq<Path>, w: Walked, depth: map<Path, nat>)
    requires Queued(g, leaves, queue, w, depth, |queue|)
    ensures Complete(g, leaves, w, depth)
  {
    assert w.seen == depth.Keys;
    hide Hangs, Expanded, IsRoot, Ordered;
    forall from | from in w.seen ensures from in depth && Expanded(g, leaves, w, depth, from) {
      assert from in queue;
      var i :| 0 <= i < |queue| && queue[i] == from;
    }
  }

  lemma SeenIsReachable(g: Graph, leaves: Path -> bool, w: Walked, depth: map<Path, nat>, path: Path)
    requires Complete(g, leaves, w, depth)
    ensures path in w.seen <==> Reachable(g, leaves, path)
  {
    if path in w.seen {
      assert ChainTo(g, leaves, Trace(g, leaves, w, depth, path), path);
    }
    if Reachable(g, leaves, path) {
      var chain :| ChainTo(g, leaves, chain, path);
      ChainSeen(g, leaves, w, depth, chain);
    }
  }

  /** Lines 542-548: every static import of the module at `index` that has not been seen joins the queue. */
  method Expand(g: Graph, leaves: Path -> bool, ghost index: nat, path: Path, queue0: seq<Path>, w0: Walked, ghost depth0: map<Path, nat>)
    returns (queue: seq<Path>, w: Walked, ghost depth: map<Path, nat>)
    requires Queued(g, leaves, queue0, w0, depth0, index) && index < |queue0| && path == queue0[index] && !leaves(path)
    requires path in g.imports
    ensures Queued(g, leaves, queue, w, depth, index) && index < |queue| && queue[index] == path
    ensures forall to | Follows(g, leaves, path, to) :: to in w.seen
  {
    hide *;
    queue, w, depth := queue0, w0, depth0;
    var edges := g.imports[path];
    for k := 0 to |edges|
      invariant index < |queue| && queue[index] == path && Queued(g, leaves, queue, w, depth, index)
      invariant forall j | 0 <= j < k && !edges[j].dynamic && edges[j].path in g.imports :: edges[j].path in w.seen
    {
      var edge := edges[k];
      if !edge.dynamic && edge.path !in w.seen && edge.path in g.imports {
        EdgeFollows(g, leaves, path, k);
        Bounded(g, leaves, queue, w, depth, index);
        AddQueued(g, leaves, queue, w, depth, index, path, edge.path);
        AddedSeen(w, path, edge.path);
        depth := depth[edge.path := depth[path] + 1];
        w := Walked(w.seen + {edge.path}, w.importer[edge.path := Some(path)]);
        queue := queue + [edge.path];
      }
    }
    AllFollowed(g, leaves, path, w);
  }

  /** `walk`: it sees exactly the modules that static imports reach from the roots through modules that are not leaves. */
  method Walk(g: Graph, leaves: Path -> bool) returns (w: Walked, ghost depth: map<Path, nat>)
    requires Valid(g)
    ensures Complete(g, leaves, w, depth)
    ensures forall path :: path in w.seen <==> Reachable(g, leaves, path)
  {
    hide *;
    var queue := Roots(g);
    w := Walked((set path | path in queue), map path | path in queue :: None);
    depth := map path | path in queue :: 0;
    StartQueued(g, leaves, queue);
    var index := 0;
    while index < |queue|
      invariant index <= |queue| && Queued(g, leaves, queue, w, depth, index)
      decreases |g.imports.Keys| - index
    {
      Bounded(g, leaves, queue, w, depth, index);
      var path := queue[index];
      if !leaves(path) {
        queue, w, depth := Expand(g, leaves, index, path, queue, w, depth);
      } else {
        LeafFollowsNothing(g, leaves, path);
      }
      NextQueued(g, leaves, queue, w, depth, index);
      index := index + 1;
    }
    Finished(g, leaves, queue, w, depth);
    forall path ensures path in w.seen <==> Reachable(g, leaves, path) {
      SeenIsReachable(g, leaves, w, depth, path);
    }
  }

  lemma Bounded(g: Graph, leaves: Path -> bool, queue: seq<Path>, w: Walked, depth: map<Path, nat>, index: nat)
    requires Queued(g, leaves, queue, w, depth, index)
    ensures |queue| <= |g.imports.Keys|
    ensures index < |queue| ==> queue[index] in g.imports && queue[index] in depth
  {
    SubsetCount(w.seen, g.imports.Keys);
    assert index < |queue| ==> queue[index] in queue;
  }

  lemma AddedSeen(w: Walked, from: Path, to: Path)
    ensures Adding(w, from, to) == Walked(w.seen + {to}, w.importer[to := Some(from)])
  {}

  lemma EdgeFollows(g: Graph, leaves: Path -> bool, path: Path, k: nat)
    requires path in g.imports && !leaves(path) && k < |g.imports[path]|
    requires !g.imports[path][k].dynamic && g.imports[path][k].path in g.imports
    ensures Follows(g, leaves, path, g.imports[path][k].path)
  {
    assert g.imports[path][k] in g.imports[path];
  }

  lemma AllFollowed(g: Graph, leaves: Path -> bool, path: Path, w: Walked)
    requires path in g.imports
    requires forall j | 0 <= j < |g.imports[path]| && !g.imports[path][j].dynamic && g.imports[path][j].path in g.imports ::
      g.imports[path][j].path in w.seen
    ensures forall to | Follows(g, leaves, path, to) :: to in w.seen
  {
    forall to | Follows(g, leaves, path, to) ensures to in w.seen {
      var edge :| edge in g.imports[path] && !edge.dynamic && edge.path == to;
      var j :| 0 <= j < |g.imports[path]| && g.imports[path][j] == edge;
    }
  }

  lemma LeafFollowsNothing(g: Graph, leaves: Path -> bool, path: Path)
    requires leaves(path)
    ensures forall to :: !Follows(g, leaves, path, to)
  {}

  /** `chainTo`: for a module the walk saw, a chain of real imports from a root, and no chain is shorter. A path the
      walk never saw has no importer and comes back alone. */
  method ChainOf(ghost g: Graph, ghost leaves: Path -> bool, w: Walked, ghost depth: map<Path, nat>, path: Path) returns (chain: seq<Path>)
    requires Complete(g, leaves, w, depth)
    ensures path in w.seen ==> ChainTo(g, leaves, chain, path)
    ensures path in w.seen ==> forall other | ChainTo(g, leaves, other, path) :: |chain| <= |other|
    ensures path !in w.seen ==> chain == [path]
  {
    hide *;
    chain := [];
    var current := Some(path);
    ghost var left := 1;
    if path in w.seen {
      left := StartOnTrace(g, leaves, w, depth, path);
    } else {
      Unseen(g, leaves, w, depth, path);
    }
    while current.Some?
      invariant path in w.seen && current.Some? ==> OnTrace(g, leaves, w, depth, path, current.value, chain, left)
      invariant path in w.seen && current.None? ==> Traced(g, leaves, w, depth, path, chain)
      invariant path !in w.seen ==> if current.Some? then current == Some(path) && chain == [] && left == 1 else chain == [path]
      decreases current.Some?, left
    {
      if path in w.seen {
        NextOnTrace(g, leaves, w, depth, path, current.value, chain, left);
      }
      chain := [current.value] + chain;
      current := if current.value in w.importer then w.importer[current.value] else None;
      left := left - 1;
    }
    if path in w.seen {
      TracedShortest(g, leaves, w, depth, path, chain);
    }
  }

  lemma Unseen(g: Graph, leaves: Path -> bool, w: Walked, depth: map<Path, nat>, path: Path)
    requires Complete(g, leaves, w, depth) && path !in w.seen
    ensures path !in w.importer
  {}

  /** The chain so far is the end of the trace, and `current` the module before it. */
  ghost predicate OnTrace(g: Graph, leaves: Path -> bool, w: Walked, depth: map<Path, nat>, path: Path, current: Path, chain: seq<Path>, left: int) {
    && Hangs(g, leaves, w, depth) && path in w.seen && current in w.seen && left == depth[current] + 1
    && Trace(g, leaves, w, depth, path) == Trace(g, leaves, w, depth, current) + chain
  }

  ghost predicate Traced(g: Graph, leaves: Path -> bool, w: Walked, depth: map<Path, nat>, path: Path, chain: seq<Path>) {
    Hangs(g, leaves, w, depth) && path in w.seen && Trace(g, leaves, w, depth, path) == chain
  }

  lemma StartOnTrace(g: Graph, leaves: Path -> bool, w: Walked, depth: map<Path, nat>, path: Path) returns (left: int)
    requires Complete(g, leaves, w, depth) && path in w.seen
    ensures OnTrace(g, leaves, w, depth, path, path, [], left)
  {
    hide HangsAt, Expanded, IsRoot, Trace;
    left := depth[path] + 1;
    var trace := Trace(g, leaves, w, depth, path);
    assert trace + [] == trace;
  }

  lemma NextOnTrace(g: Graph, leaves: Path -> bool, w: Walked, depth: map<Path, nat>, path: Path, current: Path, chain: seq<Path>, left: int)
    requires Complete(g, leaves, w, depth) && OnTrace(g, leaves, w, depth, path, current, chain, left)
    ensures left > 0 && current in w.importer
    ensures match w.importer[current]
      case None => Traced(g, leaves, w, depth, path, [current] + chain)
      case Some(from) => OnTrace(g, leaves, w, depth, path, from, [current] + chain, left - 1)
  {
    hide Hangs, HangsAt, Trace, Complete, Expanded, IsRoot, Follows, ChainTo;
    TraceStep(g, leaves, w, depth, current);
    if w.importer[current].Some? {
      var before := Trace(g, leaves, w, depth, w.importer[current].value);
      assert before + [current] + chain == before + ([current] + chain);
    }
  }

  lemma TracedShortest(g: Graph, leaves: Path -> bool, w: Walked, depth: map<Path, nat>, path: Path, chain: seq<Path>)
    requires Complete(g, leaves, w, depth) && Traced(g, leaves, w, depth, path, chain)
    ensures ChainTo(g, leaves, chain, path)
    ensures forall other | ChainTo(g, leaves, other, path) :: |chain| <= |other|
  {
    forall other | ChainTo(g, leaves, other, path) ensures |chain| <= |other| {
      ChainSeen(g, leaves, w, depth, other);
    }
  }
}
