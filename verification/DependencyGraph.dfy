/** The bounded walk over module imports (`dependency_graph.rs`), against breadth-first distances
    in the collapsed module graph. */
module DependencyGraph {
  import opened Digraph
  import opened Limits
  import opened Ordering
  import opened Paths

  datatype ImportTarget = File(path: string) | External(name: string) | Ambiguous

  /** The indexed files and, for each, where its import relations point. */
  datatype ModuleIndex = ModuleIndex(files: set<string>, imports: string -> seq<ImportTarget>)

  datatype Edge = Edge(from: string, to: string, depth: nat)

  datatype Graph = Graph(nodes: seq<string>, edges: seq<Edge>, truncated: bool)

  // ------------------------------------------------------------ the collapsed module graph

  /** Imports resolve to indexed files. */
  ghost predicate Resolved(m: ModuleIndex) {
    forall f, i :: f in m.files && 0 <= i < |m.imports(f)| && m.imports(f)[i].File? ==> m.imports(f)[i].path in m.files
  }

  /** The files of a module: the file itself, or everything below the path as a directory. */
  function ModuleFiles(m: ModuleIndex, root: string): set<string> {
    if root in m.files then {root}
    else if root == "" then {}
    else set f | f in m.files && Under(f, root)
  }

  /** The node a file belongs to: the root module as a whole, or itself. */
  function NodeOf(m: ModuleIndex, root: string, f: string): string {
    if f in ModuleFiles(m, root) then root else f
  }

  /** The non-self imports between modules. */
  ghost function Imports(m: ModuleIndex, root: string): set<(string, string)> {
    set f, i | f in m.files && 0 <= i < |m.imports(f)| && m.imports(f)[i].File?
               && NodeOf(m, root, f) != NodeOf(m, root, m.imports(f)[i].path)
            :: (NodeOf(m, root, f), NodeOf(m, root, m.imports(f)[i].path))
  }

  /** `v` is at distance exactly `k` from `u`. */
  ghost predicate AtDistance(E: set<(string, string)>, u: string, v: string, k: nat) {
    Steps(E, u, v, k) && forall j: nat :: j < k ==> !Steps(E, u, v, j)
  }

  lemma DistanceUnique(E: set<(string, string)>, u: string, v: string, j: nat, k: nat)
    requires AtDistance(E, u, v, j) && AtDistance(E, u, v, k)
    ensures j == k
  {
    hide Steps;
  }

  /** The last step of a path. */
  lemma {:induction false} StepsLast(E: set<(string, string)>, u: string, v: string, k: nat) returns (w: string)
    requires k > 0 && Steps(E, u, v, k)
    ensures Steps(E, u, w, k - 1) && (w, v) in E
    decreases k
  {
    var x :| (u, x) in E && Steps(E, x, v, k - 1);
    if k == 1 {
      w := u;
    } else {
      w := StepsLast(E, x, v, k - 1);
    }
  }

  lemma StepsAppend(E: set<(string, string)>, u: string, v: string, w: string, k: nat)
    requires Steps(E, u, v, k) && (v, w) in E
    ensures Steps(E, u, w, k + 1)
  {
    assert Steps(E, w, w, 0);
    assert Steps(E, v, w, 1);
    StepsCompose(E, u, v, w, k, 1);
  }

  /** A node reached in some steps has a distance, no larger. */
  lemma {:induction false} DistanceExists(E: set<(string, string)>, u: string, v: string, k: nat) returns (d: nat)
    requires Steps(E, u, v, k)
    ensures d <= k && AtDistance(E, u, v, d)
  {
    hide Steps;
    if j: nat :| j < k && Steps(E, u, v, j) {
      d := DistanceExists(E, u, v, j);
    } else {
      d := k;
    }
  }

  /** A node at distance `k > 0` has an importer at distance `k - 1`. */
  lemma DistancePrevious(E: set<(string, string)>, u: string, v: string, k: nat) returns (w: string)
    requires k > 0 && AtDistance(E, u, v, k)
    ensures AtDistance(E, u, w, k - 1) && (w, v) in E
  {
    w := StepsLast(E, u, v, k);
    forall j: nat | j < k - 1 ensures !Steps(E, u, w, j) {
      if Steps(E, u, w, j) { StepsAppend(E, u, w, v, j); }
    }
  }

  // ------------------------------------------------------------ what is promised

  /** Every listed node with its true distance. */
  ghost predicate Distances(E: set<(string, string)>, root: string, visited: map<string, nat>) {
    forall v :: v in visited ==> AtDistance(E, root, v, visited[v])
  }

  /** The edges are exactly the imports between listed nodes out of those at distance below
      `h`, each once, one deeper than its source. */
  ghost predicate EdgesRight(E: set<(string, string)>, visited: map<string, nat>, h: nat, edges: seq<Edge>) {
    && Distinct(edges)
    && forall e :: e in edges <==>
         (&& e.from in visited && e.to in visited && visited[e.from] < h
          && (e.from, e.to) in E && e.depth == visited[e.from] + 1)
  }

  /** Some module within `h` hops is not listed. */
  ghost predicate LeavesOut(E: set<(string, string)>, root: string, visited: map<string, nat>, h: nat) {
    exists v, k: nat :: k <= h && v !in visited && AtDistance(E, root, v, k)
  }

  /** No listed node is farther than one that was left out. */
  ghost predicate NearestFirst(E: set<(string, string)>, root: string, visited: map<string, nat>) {
    forall u, v, k: nat :: u in visited && v !in visited && AtDistance(E, root, v, k) ==> visited[u] <= k
  }

  predicate PairLess(a: (string, string), b: (string, string)) {
    StrLess(a.0, b.0) || (a.0 == b.0 && StrLess(a.1, b.1))
  }

  ghost predicate ListedBefore(E: set<(string, string)>, visited: map<string, nat>, u: string, x: (string, string))
    requires u in visited
  {
    exists w :: w in visited && visited[w] + 1 == visited[u] && (w, u) in E && PairLess((w, u), x)
  }

  /** Within a level nodes are listed in the order of their least (importer, path) pair: a node
      left out comes after every listed one of the level. */
  ghost predicate Precedence(E: set<(string, string)>, visited: map<string, nat>) {
    forall u, w, v :: u in visited && w in visited && visited[w] + 1 == visited[u] && v !in visited && (w, v) in E ==>
      ListedBefore(E, visited, u, (w, v))
  }

  predicate EdgeLess(a: Edge, b: Edge) {
    a.depth < b.depth || (a.depth == b.depth && (StrLess(a.from, b.from) || (a.from == b.from && StrLess(a.to, b.to))))
  }

  function Hops(visited: map<string, nat>, v: string): nat {
    if v in visited then visited[v] else 0
  }

  /** Order of the listed nodes: the root, then by distance, then by path. */
  predicate NodeLess(root: string, visited: map<string, nat>, a: string, b: string) {
    if a == root || b == root then a == root && b != root
    else Hops(visited, a) < Hops(visited, b) || (Hops(visited, a) == Hops(visited, b) && StrLess(a, b))
  }

  /** The answer of a walk of at most `depth` hops that lists at most `limit` nodes. */
  ghost predicate IsWalk(m: ModuleIndex, root: string, depth: nat, limit: nat, g: Graph, visited: map<string, nat>) {
    var E := Imports(m, root);
    && (forall v :: v in g.nodes <==> v in visited) && Distinct(g.nodes)
    && g.nodes != [] && g.nodes[0] == root
    && (forall i, j :: 0 <= i < j < |g.nodes| ==> NodeLess(root, visited, g.nodes[i], g.nodes[j]))
    && Distances(E, root, visited) && (forall v :: v in visited ==> visited[v] <= depth)
    && |g.nodes| <= limit && (g.truncated ==> |g.nodes| == limit)
    && (g.truncated <==> LeavesOut(E, root, visited, depth))
    && NearestFirst(E, root, visited) && Precedence(E, visited)
    && EdgesRight(E, visited, depth, g.edges) && StrictlySorted(EdgeLess, g.edges)
  }

  // ------------------------------------------------------------ one hop

  ghost predicate ListsVisited(root: string, limit: nat, g: Graph, visited: map<string, nat>) {
    && (forall v :: v in g.nodes <==> v in visited) && Distinct(g.nodes)
    && g.nodes != [] && g.nodes[0] == root && root in visited && visited[root] == 0
    && |g.nodes| <= limit
    && (g.truncated ==> |g.nodes| == limit)
  }

  /** The state after `h` complete hops. */
  ghost predicate AfterHops(
    E: set<(string, string)>, root: string, limit: nat, h: nat, g: Graph, visited: map<string, nat>)
  {
    && ListsVisited(root, limit, g, visited)
    && Distances(E, root, visited) && (forall v :: v in visited ==> visited[v] <= h)
    && (g.truncated <==> LeavesOut(E, root, visited, h))
    && EdgesRight(E, visited, h, g.edges)
  }

  /** The state within hop `h + 1`, which started from `g0` and `visited0` and has handled the
      imports `X` so far; `next` lists what it found. */
  ghost predicate WithinHop(
    E: set<(string, string)>, root: string, limit: nat, h: nat, g0: Graph, visited0: map<string, nat>,
    X: set<(string, string)>, g: Graph, visited: map<string, nat>, next: seq<string>)
  {
    && ListsVisited(root, limit, g, visited)
    && (forall e :: e in X ==> e in E && e.0 in visited0 && visited0[e.0] == h)
    && (forall v :: v in visited0 ==> v in visited && visited[v] == visited0[v])
    && (forall v :: v in visited && v !in visited0 ==> visited[v] == h + 1 && AtDistance(E, root, v, h + 1))
    && Distinct(next) && (forall v :: v in next <==> v in visited && v !in visited0)
    && (forall e :: e in X && e.1 !in visited ==> g.truncated)
    && (g0.truncated ==> g.truncated && visited == visited0)
    && (g.truncated ==> LeavesOut(E, root, visited, h + 1))
    && Distinct(g.edges)
    && (forall e :: e in g.edges <==>
          e in g0.edges || ((e.from, e.to) in X && e.to in visited && e.depth == h + 1))
  }

  lemma HopStarts(E: set<(string, string)>, root: string, limit: nat, h: nat, g: Graph, visited: map<string, nat>)
    requires AfterHops(E, root, limit, h, g, visited)
    ensures WithinHop(E, root, limit, h, g, visited, {}, g, visited, [])
  {
    hide AtDistance;
    if g.truncated {
      var v, k: nat :| k <= h && v !in visited && AtDistance(E, root, v, k);
      assert k <= h + 1;
    }
  }

  /** A neighbour of a node at distance `h` that was not listed before the hop is at distance `h + 1`. */
  lemma NewNeighbour(
    E: set<(string, string)>, root: string, limit: nat, h: nat, g0: Graph, visited0: map<string, nat>, u: string,
    v: string)
    requires AfterHops(E, root, limit, h, g0, visited0) && !g0.truncated
    requires (u, v) in E && u in visited0 && visited0[u] == h && v !in visited0
    ensures AtDistance(E, root, v, h + 1)
  {
    hide Steps;
    StepsAppend(E, root, u, v, h);
    var d := DistanceExists(E, root, v, h + 1);
    assert !LeavesOut(E, root, visited0, h);
  }

  /** What handling the import of `to` by `u` does. */
  function Handle(g: Graph, visited: map<string, nat>, next: seq<string>, u: string, to: string, hop: nat, limit: nat)
    : (Graph, map<string, nat>, seq<string>)
  {
    if to in visited then (g.(edges := g.edges + [Edge(u, to, hop)]), visited, next)
    else if |g.nodes| >= limit then (g.(truncated := true), visited, next)
    else (g.(nodes := g.nodes + [to], edges := g.edges + [Edge(u, to, hop)]), visited[to := hop], next + [to])
  }

  lemma HandleKnown(
    E: set<(string, string)>, root: string, limit: nat, h: nat, g0: Graph, visited0: map<string, nat>,
    X: set<(string, string)>, g: Graph, visited: map<string, nat>, next: seq<string>, u: string, to: string)
    requires AfterHops(E, root, limit, h, g0, visited0)
    requires WithinHop(E, root, limit, h, g0, visited0, X, g, visited, next)
    requires (u, to) in E && (u, to) !in X && u in visited0 && visited0[u] == h && to in visited
    ensures var g1 := g.(edges := g.edges + [Edge(u, to, h + 1)]);
      WithinHop(E, root, limit, h, g0, visited0, X + {(u, to)}, g1, visited, next)
  {
    hide AtDistance, LeavesOut, Distances;
    var e := Edge(u, to, h + 1);
    assert e !in g0.edges;
    assert e !in g.edges;
  }

  lemma HandleFull(
    E: set<(string, string)>, root: string, limit: nat, h: nat, g0: Graph, visited0: map<string, nat>,
    X: set<(string, string)>, g: Graph, visited: map<string, nat>, next: seq<string>, u: string, to: string)
    requires AfterHops(E, root, limit, h, g0, visited0)
    requires WithinHop(E, root, limit, h, g0, visited0, X, g, visited, next)
    requires (u, to) in E && u in visited0 && visited0[u] == h && to !in visited && |g.nodes| >= limit
    ensures WithinHop(E, root, limit, h, g0, visited0, X + {(u, to)}, g.(truncated := true), visited, next)
  {
    hide AtDistance, Distances;
    if !g.truncated {
      NewNeighbour(E, root, limit, h, g0, visited0, u, to);
      assert LeavesOut(E, root, visited, h + 1);
    }
  }

  lemma HandleNew(
    E: set<(string, string)>, root: string, limit: nat, h: nat, g0: Graph, visited0: map<string, nat>,
    X: set<(string, string)>, g: Graph, visited: map<string, nat>, next: seq<string>, u: string, to: string)
    requires AfterHops(E, root, limit, h, g0, visited0)
    requires WithinHop(E, root, limit, h, g0, visited0, X, g, visited, next)
    requires (u, to) in E && (u, to) !in X && u in visited0 && visited0[u] == h && to !in visited && |g.nodes| < limit
    ensures var r := Handle(g, visited, next, u, to, h + 1, limit);
      WithinHop(E, root, limit, h, g0, visited0, X + {(u, to)}, r.0, r.1, r.2)
  {
    hide AtDistance, LeavesOut, Distances, EdgesRight, ListsVisited;
    assert !g.truncated by { ListsRoom(root, limit, g, visited); }
    assert AtDistance(E, root, to, h + 1) by { NewNeighbour(E, root, limit, h, g0, visited0, u, to); }
    ListsGrow(root, limit, g, visited, to, h + 1, g.edges + [Edge(u, to, h + 1)]);
    NoEdgeYet(E, root, limit, h, g0, visited0, X, g, visited, next, u, to);
  }

  lemma ListsRoom(root: string, limit: nat, g: Graph, visited: map<string, nat>)
    requires ListsVisited(root, limit, g, visited) && |g.nodes| < limit
    ensures !g.truncated
  {
  }

  lemma ListsGrow(root: string, limit: nat, g: Graph, visited: map<string, nat>, to: string, hop: nat, edges: seq<Edge>)
    requires ListsVisited(root, limit, g, visited) && to !in visited && |g.nodes| < limit
    ensures ListsVisited(root, limit, Graph(g.nodes + [to], edges, g.truncated), visited[to := hop])
  {
    assert to !in g.nodes;
  }

  /** No edge into a node that was never listed. */
  lemma NoEdgeYet(
    E: set<(string, string)>, root: string, limit: nat, h: nat, g0: Graph, visited0: map<string, nat>,
    X: set<(string, string)>, g: Graph, visited: map<string, nat>, next: seq<string>, u: string, to: string)
    requires AfterHops(E, root, limit, h, g0, visited0)
    requires WithinHop(E, root, limit, h, g0, visited0, X, g, visited, next)
    requires to !in visited && !g.truncated
    ensures forall e :: e in g.edges ==> e.to != to
    ensures forall x :: x in X ==> x.1 != to
    ensures to !in next
  {
    hide AtDistance, LeavesOut, Distances;
  }

  lemma HandleKeeps(
    E: set<(string, string)>, root: string, limit: nat, h: nat, g0: Graph, visited0: map<string, nat>,
    X: set<(string, string)>, g: Graph, visited: map<string, nat>, next: seq<string>, u: string, to: string)
    requires AfterHops(E, root, limit, h, g0, visited0)
    requires WithinHop(E, root, limit, h, g0, visited0, X, g, visited, next)
    requires (u, to) in E && (u, to) !in X && u in visited0 && visited0[u] == h
    ensures var r := Handle(g, visited, next, u, to, h + 1, limit);
      WithinHop(E, root, limit, h, g0, visited0, X + {(u, to)}, r.0, r.1, r.2)
  {
    hide WithinHop, AfterHops;
    if to in visited { HandleKnown(E, root, limit, h, g0, visited0, X, g, visited, next, u, to); }
    else if |g.nodes| >= limit { HandleFull(E, root, limit, h, g0, visited0, X, g, visited, next, u, to); }
    else { HandleNew(E, root, limit, h, g0, visited0, X, g, visited, next, u, to); }
  }

  /** All imports of the nodes at distance `h`. */
  ghost function HopImports(E: set<(string, string)>, visited0: map<string, nat>, h: nat): set<(string, string)> {
    set e | e in E && e.0 in visited0 && visited0[e.0] == h
  }

  lemma HopEnds(
    E: set<(string, string)>, root: string, limit: nat, h: nat, g0: Graph, visited0: map<string, nat>,
    g: Graph, visited: map<string, nat>, next: seq<string>)
    requires AfterHops(E, root, limit, h, g0, visited0)
    requires WithinHop(E, root, limit, h, g0, visited0, HopImports(E, visited0, h), g, visited, next)
    ensures AfterHops(E, root, limit, h + 1, g, visited)
  {
    HopEndsComplete(E, root, limit, h, g0, visited0, g, visited, next);
    HopEndsEdges(E, root, limit, h, g0, visited0, g, visited, next);
    hide AtDistance, LeavesOut, EdgesRight;
  }

  lemma HopEndsComplete(
    E: set<(string, string)>, root: string, limit: nat, h: nat, g0: Graph, visited0: map<string, nat>,
    g: Graph, visited: map<string, nat>, next: seq<string>)
    requires AfterHops(E, root, limit, h, g0, visited0)
    requires WithinHop(E, root, limit, h, g0, visited0, HopImports(E, visited0, h), g, visited, next)
    ensures LeavesOut(E, root, visited, h + 1) ==> g.truncated
  {
    hide AtDistance, EdgesRight;
    if !g.truncated {
      forall v, k: nat | k <= h + 1 && AtDistance(E, root, v, k) ensures v in visited {
        if k <= h {
          assert !LeavesOut(E, root, visited0, h);
          assert v in visited0;
        } else {
          var w := DistancePrevious(E, root, v, k);
          assert w in visited0 by { assert !LeavesOut(E, root, visited0, h); }
          DistanceUnique(E, root, w, visited0[w], h);
          assert (w, v) in HopImports(E, visited0, h);
        }
      }
    }
  }

  lemma HopEndsEdges(
    E: set<(string, string)>, root: string, limit: nat, h: nat, g0: Graph, visited0: map<string, nat>,
    g: Graph, visited: map<string, nat>, next: seq<string>)
    requires AfterHops(E, root, limit, h, g0, visited0)
    requires WithinHop(E, root, limit, h, g0, visited0, HopImports(E, visited0, h), g, visited, next)
    ensures EdgesRight(E, visited, h + 1, g.edges)
  {
    hide AtDistance, LeavesOut, ListsVisited;
    forall e: Edge | e.from in visited && e.to in visited && visited[e.from] < h && (e.from, e.to) in E
      ensures e.from in visited0 && e.to in visited0
    {
      assert e.from in visited0;
      if e.to !in visited0 { FarTarget(E, root, e.from, e.to, visited0[e.from], h + 1); }
    }
  }

  /** Nothing two levels deeper is imported. */
  lemma FarTarget(E: set<(string, string)>, root: string, u: string, v: string, j: nat, k: nat)
    requires AtDistance(E, root, u, j) && (u, v) in E && AtDistance(E, root, v, k)
    ensures k <= j + 1
  {
    StepsAppend(E, root, u, v, j);
  }

  /** With nothing left to expand, later hops would change nothing. */
  lemma {:induction false} NothingDeeper(
    E: set<(string, string)>, root: string, limit: nat, h: nat, g: Graph, visited: map<string, nat>, H: nat)
    requires AfterHops(E, root, limit, h, g, visited) && h <= H
    requires forall v :: v in visited ==> visited[v] != h
    ensures AfterHops(E, root, limit, H, g, visited)
  {
    hide AtDistance, ListsVisited;
    if !g.truncated {
      forall v, k: nat | k <= H && AtDistance(E, root, v, k) ensures v in visited {
        if k > h {
          var w := Ancestor(E, root, v, k, h);
          assert w in visited by { assert !LeavesOut(E, root, visited, h); }
          DistanceUnique(E, root, w, visited[w], h);
        } else {
          assert !LeavesOut(E, root, visited, h);
        }
      }
    } else {
      var v, k: nat :| k <= h && v !in visited && AtDistance(E, root, v, k);
      assert k <= H;
    }
  }

  lemma {:induction false} Ancestor(
    E: set<(string, string)>, root: string, v: string, k: nat, h: nat)
    returns (w: string)
    requires h <= k && AtDistance(E, root, v, k)
    ensures AtDistance(E, root, w, h)
    decreases k
  {
    if k == h {
      w := v;
    } else {
      var x := DistancePrevious(E, root, v, k);
      w := Ancestor(E, root, x, k - 1, h);
    }
  }

  // ------------------------------------------------------------ the walk

  ghost predicate Lists(external: map<string, set<string>>, name: string, f: string) {
    name in external && f in external[name]
  }

  ghost predicate ImportsExternal(m: ModuleIndex, f: string, name: string) {
    External(name) in m.imports(f)
  }

  /** The files of a node. */
  ghost predicate FilesOf(m: ModuleIndex, root: string, node: string, files: seq<string>) {
    forall f :: f in files <==> f in m.files && NodeOf(m, root, f) == node
  }

  lemma InsertMember(x: string, t: seq<string>)
    ensures forall y :: y in Insert(StrLess, x, t) <==> y == x || y in t
  {
    forall y ensures y in Insert(StrLess, x, t) <==> y == x || y in t {
      assert y in Insert(StrLess, x, t) <==> y in multiset(Insert(StrLess, x, t));
      assert y in t <==> y in multiset(t);
      assert y in multiset([x]) <==> y == x;
    }
  }

  /** `x` added to a sorted set. */
  function AddSorted(x: string, t: seq<string>): seq<string> {
    if x in t then t else Insert(StrLess, x, t)
  }

  lemma AddSortedKeeps(x: string, t: seq<string>)
    requires StrictlySorted(StrLess, t)
    ensures StrictlySorted(StrLess, AddSorted(x, t))
    ensures forall y :: y in AddSorted(x, t) <==> y == x || y in t
  {
    StrLessTotal();
    InsertMember(x, t);
    if x !in t { InsertStrict(StrLess, x, t); }
  }

  /** The targets of the imports of one file, as nodes, other than `node` itself. */
  ghost predicate FileTarget(m: ModuleIndex, root: string, node: string, ts: seq<ImportTarget>, v: string) {
    exists i :: 0 <= i < |ts| && ts[i].File? && NodeOf(m, root, ts[i].path) == v && v != node
  }

  lemma FileTargetAppend(m: ModuleIndex, root: string, node: string, ts: seq<ImportTarget>, t: ImportTarget)
    ensures forall v :: FileTarget(m, root, node, ts + [t], v) <==>
      FileTarget(m, root, node, ts, v) || (t.File? && NodeOf(m, root, t.path) == v && v != node)
  {
    hide NodeOf;
    var us := ts + [t];
    assert us[|ts|] == t;
    forall v ensures FileTarget(m, root, node, us, v) <==>
      FileTarget(m, root, node, ts, v) || (t.File? && NodeOf(m, root, t.path) == v && v != node)
    {
      if i :| 0 <= i < |ts| && ts[i].File? && NodeOf(m, root, ts[i].path) == v && v != node { assert us[i] == ts[i]; }
    }
  }

  method FileImports(
    m: ModuleIndex, root: string, node: string, f: string, targets0: seq<string>, external0: map<string, set<string>>)
    returns (targets: seq<string>, external: map<string, set<string>>)
    requires StrictlySorted(StrLess, targets0)
    ensures StrictlySorted(StrLess, targets)
    ensures forall v :: v in targets <==> v in targets0 || FileTarget(m, root, node, m.imports(f), v)
    ensures forall name, x :: Lists(external, name, x) <==>
      Lists(external0, name, x) || (x == f && ImportsExternal(m, f, name))
  {
    targets, external := targets0, external0;
    var ts := m.imports(f);
    for i := 0 to |ts|
      invariant StrictlySorted(StrLess, targets)
      invariant forall v :: v in targets <==> v in targets0 || FileTarget(m, root, node, ts[..i], v)
      invariant forall name, x :: Lists(external, name, x) <==>
        Lists(external0, name, x) || (x == f && External(name) in ts[..i])
    {
      hide NodeOf, StrictlySorted, FileTarget;
      assert ts[..i + 1] == ts[..i] + [ts[i]];
      FileTargetAppend(m, root, node, ts[..i], ts[i]);
      match ts[i] {
        case File(path) =>
          var to := NodeOf(m, root, path);
          if to != node {
            AddSortedKeeps(to, targets);
            targets := AddSorted(to, targets);
          }
        case External(name) =>
          var importers := if name in external then external[name] else {};
          external := external[name := importers + {f}];
        case Ambiguous =>
      }
    }
    assert ts[..|ts|] == ts;
  }

  method Targets(m: ModuleIndex, root: string, node: string, files: seq<string>, external0: map<string, set<string>>)
    returns (targets: seq<string>, external: map<string, set<string>>)
    requires FilesOf(m, root, node, files)
    ensures StrictlySorted(StrLess, targets)
    ensures forall v :: v in targets <==> (node, v) in Imports(m, root)
    ensures forall name, x :: Lists(external, name, x) <==>
      Lists(external0, name, x) || (x in files && ImportsExternal(m, x, name))
  {
    targets, external := [], external0;
    for i := 0 to |files|
      invariant StrictlySorted(StrLess, targets)
      invariant forall v :: v in targets <==>
        exists j :: 0 <= j < i && FileTarget(m, root, node, m.imports(files[j]), v)
      invariant forall name, x :: Lists(external, name, x) <==>
        Lists(external0, name, x) || (x in files[..i] && ImportsExternal(m, x, name))
    {
      hide FileTarget, Lists, ImportsExternal, StrictlySorted;
      targets, external := FileImports(m, root, node, files[i], targets, external);
      assert files[..i + 1] == files[..i] + [files[i]];
    }
    assert files[..|files|] == files;
    forall v ensures v in targets <==> (node, v) in Imports(m, root) {
      TargetsAreImports(m, root, node, files, v);
    }
  }

  lemma TargetsAreImports(m: ModuleIndex, root: string, node: string, files: seq<string>, v: string)
    requires FilesOf(m, root, node, files)
    ensures (exists j :: 0 <= j < |files| && FileTarget(m, root, node, m.imports(files[j]), v)) <==>
      (node, v) in Imports(m, root)
  {
    hide NodeOf;
    if j :| 0 <= j < |files| && FileTarget(m, root, node, m.imports(files[j]), v) {
      var f := files[j];
      assert f in files;
      var i :| 0 <= i < |m.imports(f)| && m.imports(f)[i].File? && NodeOf(m, root, m.imports(f)[i].path) == v;
      assert (node, v) in Imports(m, root);
    }
    if (node, v) in Imports(m, root) {
      var f, i :| f in m.files && 0 <= i < |m.imports(f)| && m.imports(f)[i].File?
        && NodeOf(m, root, f) == node && NodeOf(m, root, m.imports(f)[i].path) == v && node != v;
      assert f in files;
      var j :| 0 <= j < |files| && files[j] == f;
      assert FileTarget(m, root, node, m.imports(files[j]), v);
    }
  }

  lemma TargetIsNode(m: ModuleIndex, root: string, u: string, v: string)
    requires Resolved(m) && (u, v) in Imports(m, root)
    ensures v == root || (v in m.files && v !in ModuleFiles(m, root))
  {
    hide ModuleFiles;
    var f, i :| f in m.files && 0 <= i < |m.imports(f)| && m.imports(f)[i].File?
      && NodeOf(m, root, m.imports(f)[i].path) == v;
  }

  lemma VisitedIsNode(m: ModuleIndex, root: string, v: string, k: nat)
    requires Resolved(m) && AtDistance(Imports(m, root), root, v, k)
    ensures v == root || (v in m.files && v !in ModuleFiles(m, root))
  {
    hide Resolved, ModuleFiles, Imports;
    if k > 0 {
      var w := DistancePrevious(Imports(m, root), root, v, k);
      TargetIsNode(m, root, w, v);
    }
  }

  lemma RootFilesOf(m: ModuleIndex, root: string, rootFiles: seq<string>)
    requires forall f :: f in rootFiles <==> f in ModuleFiles(m, root)
    requires rootFiles != []
    ensures FilesOf(m, root, root, rootFiles)
  {
    assert rootFiles[0] in rootFiles;
  }

  lemma SingleFileOf(m: ModuleIndex, root: string, node: string)
    requires node in m.files && node !in ModuleFiles(m, root) && node != root
    ensures FilesOf(m, root, node, [node])
  {
  }

  /** Which files import which external names, over the nodes expanded in the first `h` hops. */
  ghost predicate ExternalRight(
    m: ModuleIndex, root: string, visited: map<string, nat>, h: nat, external: map<string, set<string>>)
  {
    forall name, f :: Lists(external, name, f) <==>
      f in m.files && NodeOf(m, root, f) in visited && visited[NodeOf(m, root, f)] < h && ImportsExternal(m, f, name)
  }

  ghost function Pairs(node: string, ts: seq<string>): set<(string, string)> {
    set t | t in ts :: (node, t)
  }

  lemma PairsAppend(node: string, ts: seq<string>, t: string)
    ensures Pairs(node, ts + [t]) == Pairs(node, ts) + {(node, t)}
  {
  }

  ghost predicate FoundBefore(X: set<(string, string)>, u: string, x: (string, string)) {
    exists w :: (w, u) in X && PairLess((w, u), x)
  }

  ghost predicate Found(X: set<(string, string)>, u: string) {
    exists w :: (w, u) in X
  }

  /** Within a hop that has handled the imports `X`: whatever was dropped came after everything listed. */
  ghost predicate InOrder(visited0: map<string, nat>, X: set<(string, string)>, visited: map<string, nat>) {
    && (forall u :: u in visited && u !in visited0 ==> Found(X, u))
    && (forall x, u :: x in X && x.1 !in visited && u in visited && u !in visited0 ==> FoundBefore(X, u, x))
  }

  lemma FoundGrows(X: set<(string, string)>, y: (string, string))
    ensures forall u :: Found(X, u) ==> Found(X + {y}, u)
    ensures forall u, x :: FoundBefore(X, u, x) ==> FoundBefore(X + {y}, u, x)
  {
    hide PairLess;
    forall u | Found(X, u) ensures Found(X + {y}, u) {
      var w :| (w, u) in X;
      assert (w, u) in X + {y};
    }
    forall u, x | FoundBefore(X, u, x) ensures FoundBefore(X + {y}, u, x) {
      var w :| (w, u) in X && PairLess((w, u), x);
      assert (w, u) in X + {y};
    }
  }

  /** Handling imports in increasing order keeps what was dropped after what is listed. */
  lemma HandleInOrder(
    visited0: map<string, nat>, X: set<(string, string)>, g: Graph, visited: map<string, nat>, next: seq<string>,
    u: string, to: string, hop: nat, limit: nat)
    requires InOrder(visited0, X, visited)
    requires forall x :: x in X ==> PairLess(x, (u, to))
    requires |g.nodes| < limit ==> forall x :: x in X ==> x.1 in visited
    ensures InOrder(visited0, X + {(u, to)}, Handle(g, visited, next, u, to, hop, limit).1)
  {
    hide PairLess;
    var Y := X + {(u, to)};
    FoundGrows(X, (u, to));
    if to in visited {
    } else if |g.nodes| >= limit {
      forall v | v in visited && v !in visited0 ensures FoundBefore(Y, v, (u, to)) {
        var w :| (w, v) in X;
        assert (w, v) in Y;
      }
    } else {
      assert (u, to) in Y;
    }
  }

  lemma NothingDropped(
    E: set<(string, string)>, root: string, limit: nat, h: nat, g0: Graph, visited0: map<string, nat>,
    X: set<(string, string)>, g: Graph, visited: map<string, nat>, next: seq<string>)
    requires WithinHop(E, root, limit, h, g0, visited0, X, g, visited, next)
    ensures |g.nodes| < limit ==> forall x :: x in X ==> x.1 in visited
  {
    hide AtDistance, LeavesOut;
  }

  /** The imports of one node, in the order of their targets. */
  method Expand(
    ghost E: set<(string, string)>, ghost root: string, node: string, targets: seq<string>, hop: nat, limit: nat,
    ghost g0: Graph, ghost visited0: map<string, nat>, ghost X: set<(string, string)>,
    g1: Graph, visited1: map<string, nat>, next1: seq<string>)
    returns (g: Graph, visited: map<string, nat>, next: seq<string>)
    requires hop > 0 && AfterHops(E, root, limit, hop - 1, g0, visited0)
    requires WithinHop(E, root, limit, hop - 1, g0, visited0, X, g1, visited1, next1)
    requires InOrder(visited0, X, visited1) && forall x :: x in X ==> StrLess(x.0, node)
    requires node in visited0 && visited0[node] == hop - 1
    requires StrictlySorted(StrLess, targets) && forall t :: t in targets ==> (node, t) in E
    ensures WithinHop(E, root, limit, hop - 1, g0, visited0, X + Pairs(node, targets), g, visited, next)
    ensures InOrder(visited0, X + Pairs(node, targets), visited)
  {
    hide WithinHop, AfterHops, InOrder, Pairs, StrictlySorted, StrLess, PairLess;
    g, visited, next := g1, visited1, next1;
    ghost var Y := X;
    NoPairs(node);
    for i := 0 to |targets|
      invariant Y == X + Pairs(node, targets[..i])
      invariant WithinHop(E, root, limit, hop - 1, g0, visited0, Y, g, visited, next)
      invariant InOrder(visited0, Y, visited)
    {
      var to := targets[i];
      NextPair(X, node, targets, i);
      HandleKeeps(E, root, limit, hop - 1, g0, visited0, Y, g, visited, next, node, to);
      NothingDropped(E, root, limit, hop - 1, g0, visited0, Y, g, visited, next);
      HandleInOrder(visited0, Y, g, visited, next, node, to, hop, limit);
      if to in visited {
        g := g.(edges := g.edges + [Edge(node, to, hop)]);
      } else if |g.nodes| >= limit {
        g := g.(truncated := true);
      } else {
        visited := visited[to := hop];
        g := g.(nodes := g.nodes + [to], edges := g.edges + [Edge(node, to, hop)]);
        next := next + [to];
      }
      Y := Y + {(node, to)};
    }
    assert targets[..|targets|] == targets;
  }

  lemma NoPairs(node: string)
    ensures Pairs(node, []) == {}
  {
  }

  /** The next import comes after those handled. */
  lemma NextPair(X: set<(string, string)>, node: string, targets: seq<string>, i: nat)
    requires i < |targets| && StrictlySorted(StrLess, targets)
    requires forall x :: x in X ==> StrLess(x.0, node)
    ensures targets[i] in targets
    ensures var Y := X + Pairs(node, targets[..i]);
      && (node, targets[i]) !in Y && (forall y :: y in Y ==> PairLess(y, (node, targets[i])))
      && Y + {(node, targets[i])} == X + Pairs(node, targets[..i + 1])
  {
    hide StrLess;
    StrLessTotal();
    PairsAppend(node, targets[..i], targets[i]);
    assert targets[..i + 1] == targets[..i] + [targets[i]];
  }

  /** The frontier lists the nodes at distance `h`. */
  ghost predicate Frontier(visited: map<string, nat>, h: nat, frontier: seq<string>) {
    Distinct(frontier) && forall v :: v in frontier <==> v in visited && visited[v] == h
  }

  /** One pass over the frontier. */
  method Hop(
    m: ModuleIndex, root: string, rootFiles: seq<string>, hop: nat, limit: nat,
    g0: Graph, visited0: map<string, nat>, frontier: seq<string>, external0: map<string, set<string>>)
    returns (g: Graph, visited: map<string, nat>, next: seq<string>, external: map<string, set<string>>)
    requires Resolved(m) && hop > 0 && rootFiles != []
    requires forall f :: f in rootFiles <==> f in ModuleFiles(m, root)
    requires AfterHops(Imports(m, root), root, limit, hop - 1, g0, visited0) && Order(Imports(m, root), root, visited0)
    requires StrictlySorted(StrLess, frontier)
    requires Frontier(visited0, hop - 1, frontier) && ExternalRight(m, root, visited0, hop - 1, external0)
    ensures AfterHops(Imports(m, root), root, limit, hop, g, visited) && Order(Imports(m, root), root, visited)
    ensures Frontier(visited, hop, next) && ExternalRight(m, root, visited, hop, external)
  {
    hide Resolved, ModuleFiles, Imports, WithinHop, AfterHops, NodeOf, FilesOf, AtDistance, Lists, ImportsExternal,
      InOrder, Order, Pairs, StrLess;
    ghost var E := Imports(m, root);
    g, visited, next, external := g0, visited0, [], external0;
    HopStarts(E, root, limit, hop - 1, g0, visited0);
    NothingYet(visited0);
    ghost var X: set<(string, string)> := {};
    for i := 0 to |frontier|
      invariant X == set e | e in E && e.0 in frontier[..i]
      invariant WithinHop(E, root, limit, hop - 1, g0, visited0, X, g, visited, next)
      invariant InOrder(visited0, X, visited)
      invariant forall name, f :: Lists(external, name, f) <==>
        Lists(external0, name, f)
        || (f in m.files && NodeOf(m, root, f) in frontier[..i] && ImportsExternal(m, f, name))
    {
      var node := frontier[i];
      assert node in frontier;
      NodeFiles(m, root, rootFiles, limit, hop - 1, g0, visited0, node);
      var files := if node == root then rootFiles else [node];
      var targets;
      targets, external := Targets(m, root, node, files, external);
      EarlierNodes(E, frontier, i, X);
      g, visited, next := Expand(E, root, node, targets, hop, limit, g0, visited0, X, g, visited, next);
      assert frontier[..i + 1] == frontier[..i] + [node];
      ImportsOfNext(E, frontier, i, X, targets);
      X := X + Pairs(node, targets);
      FilesOfNode(m, root, node, files);
    }
    assert frontier[..|frontier|] == frontier;
    assert X == HopImports(E, visited0, hop - 1);
    HopEnds(E, root, limit, hop - 1, g0, visited0, g, visited, next);
    HopNext(E, root, limit, hop - 1, g0, visited0, X, g, visited, next);
    HopOrder(E, root, limit, hop - 1, g0, visited0, g, visited, next);
    ExternalGrows(m, root, limit, hop - 1, g0, visited0, g, visited, frontier, external0, external);
  }

  ghost predicate Order(E: set<(string, string)>, root: string, visited: map<string, nat>) {
    NearestFirst(E, root, visited) && Precedence(E, visited)
  }

  lemma NothingYet(visited0: map<string, nat>)
    ensures InOrder(visited0, {}, visited0)
  {
  }

  lemma EarlierNodes(E: set<(string, string)>, frontier: seq<string>, i: nat, X: set<(string, string)>)
    requires i < |frontier| && StrictlySorted(StrLess, frontier)
    requires X == set e | e in E && e.0 in frontier[..i]
    ensures forall x :: x in X ==> StrLess(x.0, frontier[i])
  {
    hide StrLess;
  }

  lemma ImportsOfNext(
    E: set<(string, string)>, frontier: seq<string>, i: nat, X: set<(string, string)>, targets: seq<string>)
    requires i < |frontier| && X == set e | e in E && e.0 in frontier[..i]
    requires forall t :: t in targets <==> (frontier[i], t) in E
    ensures X + Pairs(frontier[i], targets) == set e | e in E && e.0 in frontier[..i + 1]
  {
    assert frontier[..i + 1] == frontier[..i] + [frontier[i]];
    forall e | e in E && e.0 == frontier[i] ensures e in Pairs(frontier[i], targets) {
      assert e == (frontier[i], e.1);
    }
  }

  lemma HopOrder(
    E: set<(string, string)>, root: string, limit: nat, h: nat, g0: Graph, visited0: map<string, nat>,
    g: Graph, visited: map<string, nat>, next: seq<string>)
    requires AfterHops(E, root, limit, h, g0, visited0) && Order(E, root, visited0)
    requires WithinHop(E, root, limit, h, g0, visited0, HopImports(E, visited0, h), g, visited, next)
    requires InOrder(visited0, HopImports(E, visited0, h), visited)
    ensures Order(E, root, visited)
  {
    HopNearest(E, root, limit, h, g0, visited0, g, visited, next);
    HopPrecedence(E, root, limit, h, g0, visited0, g, visited, next);
  }

  lemma HopNearest(
    E: set<(string, string)>, root: string, limit: nat, h: nat, g0: Graph, visited0: map<string, nat>,
    g: Graph, visited: map<string, nat>, next: seq<string>)
    requires AfterHops(E, root, limit, h, g0, visited0) && NearestFirst(E, root, visited0)
    requires WithinHop(E, root, limit, h, g0, visited0, HopImports(E, visited0, h), g, visited, next)
    ensures NearestFirst(E, root, visited)
  {
    hide AtDistance, ListsVisited, EdgesRight, Distances, HopImports;
    forall u, v, k: nat | u in visited && v !in visited && AtDistance(E, root, v, k) ensures visited[u] <= k {
      assert v !in visited0;
      if u !in visited0 { assert !LeavesOut(E, root, visited0, h); }
    }
  }

  lemma HopPrecedence(
    E: set<(string, string)>, root: string, limit: nat, h: nat, g0: Graph, visited0: map<string, nat>,
    g: Graph, visited: map<string, nat>, next: seq<string>)
    requires AfterHops(E, root, limit, h, g0, visited0) && Precedence(E, visited0)
    requires WithinHop(E, root, limit, h, g0, visited0, HopImports(E, visited0, h), g, visited, next)
    requires InOrder(visited0, HopImports(E, visited0, h), visited)
    ensures Precedence(E, visited)
  {
    hide AtDistance, ListsVisited, EdgesRight, Distances, PairLess, LeavesOut;
    forall u, w, v | u in visited && w in visited && visited[w] + 1 == visited[u] && v !in visited && (w, v) in E
      ensures ListedBefore(E, visited, u, (w, v))
    {
      assert v !in visited0;
      if u in visited0 {
        assert w in visited0;
        assert ListedBefore(E, visited0, u, (w, v));
        var x :| x in visited0 && visited0[x] + 1 == visited0[u] && (x, u) in E && PairLess((x, u), (w, v));
        assert x in visited;
      } else {
        assert (w, v) in HopImports(E, visited0, h);
        assert FoundBefore(HopImports(E, visited0, h), u, (w, v));
        var x :| (x, u) in HopImports(E, visited0, h) && PairLess((x, u), (w, v));
        assert x in visited;
      }
    }
  }

  lemma FilesOfNode(m: ModuleIndex, root: string, node: string, files: seq<string>)
    requires FilesOf(m, root, node, files)
    ensures forall f :: f in files <==> f in m.files && NodeOf(m, root, f) == node
  {
  }

  lemma NodeFiles(
    m: ModuleIndex, root: string, rootFiles: seq<string>, limit: nat, h: nat, g: Graph, visited: map<string, nat>,
    node: string)
    requires Resolved(m) && rootFiles != [] && forall f :: f in rootFiles <==> f in ModuleFiles(m, root)
    requires AfterHops(Imports(m, root), root, limit, h, g, visited) && node in visited
    ensures FilesOf(m, root, node, if node == root then rootFiles else [node])
  {
    hide Resolved, ModuleFiles, Imports, FilesOf, EdgesRight, LeavesOut, ListsVisited;
    VisitedIsNode(m, root, node, visited[node]);
    if node == root { RootFilesOf(m, root, rootFiles); } else { SingleFileOf(m, root, node); }
  }

  lemma HopNext(
    E: set<(string, string)>, root: string, limit: nat, h: nat, g0: Graph, visited0: map<string, nat>,
    X: set<(string, string)>, g: Graph, visited: map<string, nat>, next: seq<string>)
    requires AfterHops(E, root, limit, h, g0, visited0)
    requires WithinHop(E, root, limit, h, g0, visited0, X, g, visited, next)
    ensures Frontier(visited, h + 1, next)
    ensures forall v :: v in visited ==> (v in visited0 && visited[v] == visited0[v]) || visited[v] == h + 1
    ensures forall v :: v in visited0 ==> v in visited && visited[v] == visited0[v]
  {
    hide AtDistance, LeavesOut, EdgesRight, ListsVisited, Distances;
  }

  lemma ExternalGrows(
    m: ModuleIndex, root: string, limit: nat, h: nat, g0: Graph, visited0: map<string, nat>, g: Graph,
    visited: map<string, nat>,
    frontier: seq<string>, external0: map<string, set<string>>, external: map<string, set<string>>)
    requires Frontier(visited0, h, frontier) && ExternalRight(m, root, visited0, h, external0)
    requires forall v :: v in visited ==> (v in visited0 && visited[v] == visited0[v]) || visited[v] == h + 1
    requires forall v :: v in visited0 ==> v in visited && visited[v] == visited0[v]
    requires forall name, f :: Lists(external, name, f) <==>
      Lists(external0, name, f) || (f in m.files && NodeOf(m, root, f) in frontier && ImportsExternal(m, f, name))
    ensures ExternalRight(m, root, visited, h + 1, external)
  {
    hide NodeOf, Lists, ImportsExternal;
  }

  // ------------------------------------------------------------ the whole walk

  lemma WalkStarts(E: set<(string, string)>, root: string, limit: nat, g: Graph, visited: map<string, nat>)
    requires limit > 0 && g == Graph([root], [], false) && visited == map[root := 0]
    ensures AfterHops(E, root, limit, 0, g, visited) && Order(E, root, visited)
    ensures Frontier(visited, 0, [root])
  {
    forall v | AtDistance(E, root, v, 0) ensures v == root { assert Steps(E, root, v, 0); }
    assert Steps(E, root, root, 0);
  }

  lemma {:induction false} SortFrontier(visited: map<string, nat>, h: nat, next: seq<string>)
    requires Frontier(visited, h, next)
    ensures Frontier(visited, h, StableSort(StrLess, next)) && StrictlySorted(StrLess, StableSort(StrLess, next))
  {
    StrLessTotal();
    SortedPermutation(StrLess, next);
  }

  lemma NoExternal(m: ModuleIndex, root: string, visited: map<string, nat>)
    ensures ExternalRight(m, root, visited, 0, map[])
  {
    hide NodeOf, ImportsExternal;
  }

  lemma NoneAt(visited: map<string, nat>, h: nat)
    requires Frontier(visited, h, [])
    ensures forall v :: v in visited ==> visited[v] != h
  {
  }

  /** A hop that lists nothing new is the last one that matters. */
  lemma NothingNew(
    E: set<(string, string)>, m: ModuleIndex, root: string, limit: nat, h: nat, H: nat, g: Graph,
    visited: map<string, nat>,
    external: map<string, set<string>>)
    requires AfterHops(E, root, limit, h, g, visited) && h <= H
    requires Frontier(visited, h, []) && ExternalRight(m, root, visited, h, external)
    ensures AfterHops(E, root, limit, H, g, visited) && ExternalRight(m, root, visited, H, external)
  {
    hide NodeOf, Lists, ImportsExternal, AtDistance, LeavesOut, EdgesRight, ListsVisited, Distances;
    NoneAt(visited, h);
    NothingDeeper(E, root, limit, h, g, visited, H);
  }

  function NodeOrder(root: string, visited: map<string, nat>): (string, string) -> bool {
    (a, b) => NodeLess(root, visited, a, b)
  }

  lemma NodeOrderTotal(root: string, visited: map<string, nat>)
    ensures StrictTotal(NodeOrder(root, visited))
  {
    hide StrLess;
    StrLessTotal();
  }

  lemma EdgeLessTotal()
    ensures StrictTotal(EdgeLess)
  {
    hide StrLess;
    StrLessTotal();
  }

  lemma EdgesSorted(E: set<(string, string)>, visited: map<string, nat>, h: nat, edges: seq<Edge>)
    requires EdgesRight(E, visited, h, edges)
    ensures EdgesRight(E, visited, h, StableSort(EdgeLess, edges))
    ensures StrictlySorted(EdgeLess, StableSort(EdgeLess, edges))
  {
    hide EdgeLess, StrictlySorted;
    EdgeLessTotal();
    SortedPermutation(EdgeLess, edges);
  }

  /** Sorting the nodes puts the root first. */
  lemma NodesSorted(root: string, limit: nat, g: Graph, visited: map<string, nat>)
    requires ListsVisited(root, limit, g, visited)
    ensures var t := StableSort(NodeOrder(root, visited), g.nodes);
      && (forall v :: v in t <==> v in visited) && Distinct(t) && t != [] && t[0] == root
      && (forall i, j :: 0 <= i < j < |t| ==> NodeLess(root, visited, t[i], t[j]))
  {
    hide StrLess, Hops;
    NodeOrderTotal(root, visited);
    SortedPermutation(NodeOrder(root, visited), g.nodes);
    var t := StableSort(NodeOrder(root, visited), g.nodes);
    assert root in t;
    var i :| 0 <= i < |t| && t[i] == root;
    assert StrictlySorted(NodeOrder(root, visited), t);
    if i > 0 { assert NodeOrder(root, visited)(t[0], t[i]); }
  }

  lemma Finish(m: ModuleIndex, root: string, depth: nat, limit: nat, g: Graph, visited: map<string, nat>)
    requires AfterHops(Imports(m, root), root, limit, depth, g, visited) && Order(Imports(m, root), root, visited)
    ensures IsWalk(m, root, depth, limit,
      g.(nodes := StableSort(NodeOrder(root, visited), g.nodes), edges := StableSort(EdgeLess, g.edges)), visited)
  {
    hide Imports, AtDistance, LeavesOut, EdgesRight, NodeOrder, NodeLess, EdgeLess, NearestFirst, Precedence, Distances;
    NodesSorted(root, limit, g, visited);
    EdgesSorted(Imports(m, root), visited, depth, g.edges);
  }

  /** The walk: empty when the module has no indexed file. */
  method WalkDependencyGraph(m: ModuleIndex, root: string, rootFiles: seq<string>, depth0: nat, limit0: nat)
    returns (g: Graph, external: map<string, set<string>>, ghost visited: map<string, nat>)
    requires Resolved(m) && forall f :: f in rootFiles <==> f in ModuleFiles(m, root)
    ensures rootFiles == [] ==> g == Graph([], [], false) && external == map[]
    ensures rootFiles != [] ==>
      var depth, limit := Clamp(depth0, 1, MAX_QUERY_DEPTH), if limit0 == 0 then 1 else limit0;
      && IsWalk(m, root, depth, limit, g, visited)
      && ExternalRight(m, root, visited, depth, external)
  {
    hide Resolved, ModuleFiles, Imports, AfterHops, NodeOf, AtDistance, Lists, ImportsExternal, Order, StrLess,
      ExternalRight, IsWalk, EdgeLess, NodeLess, Frontier;
    if rootFiles == [] { return Graph([], [], false), map[], map[]; }
    var depth, limit := Clamp(depth0, 1, MAX_QUERY_DEPTH), if limit0 == 0 then 1 else limit0;
    ghost var E := Imports(m, root);
    g := Graph([root], [], false);
    var seen: map<string, nat> := map[root := 0];
    external := map[];
    var frontier := [root];
    WalkStarts(E, root, limit, g, seen);
    NoExternal(m, root, seen);
    var hop := 0;
    while hop < depth
      invariant hop <= depth
      invariant AfterHops(E, root, limit, hop, g, seen) && Order(E, root, seen)
      invariant ExternalRight(m, root, seen, hop, external)
      invariant hop < depth ==> Frontier(seen, hop, frontier) && StrictlySorted(StrLess, frontier)
    {
      hop := hop + 1;
      var next;
      g, seen, next, external := Hop(m, root, rootFiles, hop, limit, g, seen, frontier, external);
      if next == [] {
        NothingNew(E, m, root, limit, hop, depth, g, seen, external);
        break;
      }
      SortFrontier(seen, hop, next);
      frontier := StableSort(StrLess, next);
    }
    visited := seen;
    Finish(m, root, depth, limit, g, seen);
    g := g.(nodes := StableSort(NodeOrder(root, seen), g.nodes), edges := StableSort(EdgeLess, g.edges));
  }

  // ------------------------------------------------------------ the answer is determined

  /** What a walk promises of the nodes it lists. */
  ghost predicate ListsNearest(
    E: set<(string, string)>, root: string, depth: nat, limit: nat, visited: map<string, nat>)
  {
    && Distances(E, root, visited) && NearestFirst(E, root, visited) && Precedence(E, visited)
    && (LeavesOut(E, root, visited, depth) ==> |visited.Keys| == limit)
    && |visited.Keys| <= limit && forall v :: v in visited ==> visited[v] <= depth
  }

  lemma WalkListsNearest(m: ModuleIndex, root: string, depth: nat, limit: nat, g: Graph, visited: map<string, nat>)
    requires IsWalk(m, root, depth, limit, g, visited)
    ensures ListsNearest(Imports(m, root), root, depth, limit, visited)
  {
    hide Imports, AtDistance, LeavesOut, EdgesRight, NodeLess, EdgeLess, NearestFirst, Precedence, Distances;
    DistinctSize(g.nodes, visited.Keys);
  }

  ghost predicate Agree(v1: map<string, nat>, v2: map<string, nat>, d: nat) {
    forall v :: (v in v1 && v1[v] < d) <==> (v in v2 && v2[v] < d)
  }

  /** The importers of `v` listed one level up. */
  ghost function ListedImporters(E: set<(string, string)>, visited: map<string, nat>, v: string, d: nat): set<string> {
    set w | w in visited && visited[w] + 1 == d && (w, v) in E
  }

  lemma HasListedImporter(E: set<(string, string)>, root: string, visited: map<string, nat>, v: string, d: nat)
    requires Distances(E, root, visited) && NearestFirst(E, root, visited)
    requires v in visited && visited[v] == d && d > 0
    ensures ListedImporters(E, visited, v, d) != {}
  {
    hide AtDistance;
    var w := DistancePrevious(E, root, v, d);
    assert w in visited;
    DistanceUnique(E, root, w, visited[w], d - 1);
    assert w in ListedImporters(E, visited, v, d);
  }

  lemma SameDistance(E: set<(string, string)>, root: string, v1: map<string, nat>, v2: map<string, nat>, v: string)
    requires Distances(E, root, v1) && Distances(E, root, v2) && v in v1 && v in v2
    ensures v1[v] == v2[v]
  {
    hide AtDistance;
    DistanceUnique(E, root, v, v1[v], v2[v]);
  }

  lemma SameImporters(
    E: set<(string, string)>, root: string, v1: map<string, nat>, v2: map<string, nat>, v: string, d: nat)
    requires Distances(E, root, v1) && Distances(E, root, v2) && Agree(v1, v2, d)
    ensures ListedImporters(E, v1, v, d) == ListedImporters(E, v2, v, d)
  {
    hide Distances;
    forall w | w in v1 && w in v2 ensures v1[w] == v2[w] { SameDistance(E, root, v1, v2, w); }
  }

  lemma LeastImporter(S: set<string>) returns (w: string)
    requires S != {}
    ensures w in S && forall y :: y in S ==> !StrLess(y, w)
  {
    hide StrLess;
    StrLessTotal();
    var ws := SetToSorted(StrLess, S);
    var first :| first in S;
    assert first in ws;
    w := ws[0];
    assert w in ws;
    forall y | y in S ensures !StrLess(y, w) {
      assert y in ws;
      var i :| 0 <= i < |ws| && ws[i] == y;
      if i > 0 { assert StrLess(w, y); }
    }
  }

  /** Two walks that agree above a level and list different nodes of it give ever smaller importers. */
  lemma Descend(
    E: set<(string, string)>, root: string, v1: map<string, nat>, v2: map<string, nat>, u: string, v: string, d: nat,
    w: string)
    returns (y: string)
    requires Distances(E, root, v1) && Precedence(E, v1) && Distances(E, root, v2) && Precedence(E, v2)
    requires Agree(v1, v2, d)
    requires u in v1 && v1[u] == d && v in v2 && v2[v] == d && u !in v2 && v !in v1
    requires w in ListedImporters(E, v2, v, d)
    ensures y in ListedImporters(E, v2, v, d) && StrLess(y, w)
  {
    hide AtDistance, Distances, StrLess, Agree;
    SameImporters(E, root, v1, v2, v, d);
    SameImporters(E, root, v1, v2, u, d);
    assert w in ListedImporters(E, v1, v, d);
    assert ListedBefore(E, v1, u, (w, v));
    var x :| x in v1 && v1[x] + 1 == d && (x, u) in E && PairLess((x, u), (w, v));
    assert x in ListedImporters(E, v1, u, d);
    assert ListedBefore(E, v2, v, (x, u));
    y :| y in v2 && v2[y] + 1 == d && (y, v) in E && PairLess((y, v), (x, u));
    PairLessDescends(y, x, w, u, v);
  }

  lemma PairLessDescends(y: string, x: string, w: string, u: string, v: string)
    requires u != v && PairLess((x, u), (w, v)) && PairLess((y, v), (x, u))
    ensures StrLess(y, w)
  {
    hide StrLess;
    StrLessTotal();
  }

  /** Two walks that agree above a level do not list different nodes of it. */
  lemma NoSwap(
    E: set<(string, string)>, root: string, v1: map<string, nat>, v2: map<string, nat>, u: string, v: string, d: nat)
    requires Distances(E, root, v1) && Precedence(E, v1)
    requires Distances(E, root, v2) && NearestFirst(E, root, v2) && Precedence(E, v2)
    requires d > 0 && Agree(v1, v2, d)
    requires u in v1 && v1[u] == d && v in v2 && v2[v] == d
    ensures u in v2 || v in v1
  {
    hide *;
    HasListedImporter(E, root, v2, v, d);
    var w := LeastImporter(ListedImporters(E, v2, v, d));
    if u !in v2 && v !in v1 {
      var y := Descend(E, root, v1, v2, u, v, d, w);
      assert false;
    }
  }

  /** A node of the next level that one walk lists, the other lists too. */
  lemma LevelListed(
    E: set<(string, string)>, root: string, depth: nat, limit: nat, v1: map<string, nat>, v2: map<string, nat>,
    v: string, d: nat)
    requires ListsNearest(E, root, depth, limit, v1) && ListsNearest(E, root, depth, limit, v2)
    requires d > 0 && Agree(v1, v2, d) && v in v2 && v2[v] == d
    ensures v in v1
  {
    hide AtDistance, Precedence, NearestFirst;
    if v !in v1 {
      assert LeavesOut(E, root, v1, depth);
      LevelBelow(E, root, depth, limit, v1, v2, v, d);
      StrictSubsetSmaller(v1.Keys, v2.Keys, v);
      assert false;
    }
  }

  /** When a walk leaves out a node of the level that another lists, it lists nothing else. */
  lemma LevelBelow(
    E: set<(string, string)>, root: string, depth: nat, limit: nat, v1: map<string, nat>, v2: map<string, nat>,
    v: string, d: nat)
    requires ListsNearest(E, root, depth, limit, v1) && ListsNearest(E, root, depth, limit, v2)
    requires d > 0 && Agree(v1, v2, d) && v in v2 && v2[v] == d && v !in v1
    ensures v1.Keys <= v2.Keys
  {
    hide AtDistance, Precedence, LeavesOut;
    assert AtDistance(E, root, v, d);
    forall u | u in v1 ensures u in v2 {
      if v1[u] == d { NoSwap(E, root, v1, v2, u, v, d); }
    }
  }

  /** Two walks agree on every level. */
  lemma {:induction false} LevelsAgree(
    E: set<(string, string)>, root: string, depth: nat, limit: nat, v1: map<string, nat>, v2: map<string, nat>, d: nat)
    requires ListsNearest(E, root, depth, limit, v1) && ListsNearest(E, root, depth, limit, v2)
    requires root in v1 && root in v2
    ensures Agree(v1, v2, d + 1)
  {
    hide Steps, Precedence, NearestFirst, LeavesOut;
    if d == 0 {
      forall v | (v in v1 && v1[v] == 0) || (v in v2 && v2[v] == 0) ensures v == root { RootOnly(E, root, v); }
      RootOnly(E, root, root);
    } else {
      LevelsAgree(E, root, depth, limit, v1, v2, d - 1);
      forall v ensures (v in v1 && v1[v] < d + 1) <==> (v in v2 && v2[v] < d + 1) {
        if v in v2 && v2[v] == d { LevelListed(E, root, depth, limit, v1, v2, v, d); SameDistance(E, root, v1, v2, v); }
        if v in v1 && v1[v] == d { LevelListed(E, root, depth, limit, v2, v1, v, d); SameDistance(E, root, v1, v2, v); }
      }
    }
  }

  lemma RootOnly(E: set<(string, string)>, root: string, v: string)
    ensures AtDistance(E, root, v, 0) <==> v == root
  {
    assert Steps(E, root, v, 0) <==> v == root;
  }

  /** There is one walk: what it lists, in which order, and where it stops are determined. */
  lemma WalkUnique(
    m: ModuleIndex, root: string, depth: nat, limit: nat, g1: Graph, v1: map<string, nat>, g2: Graph,
    v2: map<string, nat>)
    requires IsWalk(m, root, depth, limit, g1, v1) && IsWalk(m, root, depth, limit, g2, v2)
    ensures g1 == g2 && v1 == v2
  {
    hide Imports, AtDistance, LeavesOut, NearestFirst, Precedence, Distances, EdgeLess, StrLess, Hops, ListsNearest,
      NodeLess;
    var E := Imports(m, root);
    WalkListsNearest(m, root, depth, limit, g1, v1);
    WalkListsNearest(m, root, depth, limit, g2, v2);
    assert g1.nodes[0] in g1.nodes && g2.nodes[0] in g2.nodes;
    SameListed(E, root, depth, limit, v1, v2);
    SameOrder(root, v1, g1.nodes, g2.nodes);
    EdgeLessTotal();
    StrictlySortedUnique(EdgeLess, g1.edges, g2.edges);
  }

  lemma SameListed(
    E: set<(string, string)>, root: string, depth: nat, limit: nat, v1: map<string, nat>, v2: map<string, nat>)
    requires ListsNearest(E, root, depth, limit, v1) && ListsNearest(E, root, depth, limit, v2)
    requires root in v1 && root in v2
    ensures v1 == v2
  {
    hide AtDistance, Precedence, NearestFirst, LeavesOut;
    LevelsAgree(E, root, depth, limit, v1, v2, depth);
    forall v ensures v in v1 <==> v in v2 {
      assert (v in v1 && v1[v] < depth + 1) <==> (v in v2 && v2[v] < depth + 1);
    }
    forall v | v in v1 ensures v1[v] == v2[v] { SameDistance(E, root, v1, v2, v); }
  }

  lemma SameOrder(root: string, visited: map<string, nat>, a: seq<string>, b: seq<string>)
    requires forall v :: v in a <==> v in visited
    requires forall v :: v in b <==> v in visited
    requires forall i, j :: 0 <= i < j < |a| ==> NodeLess(root, visited, a[i], a[j])
    requires forall i, j :: 0 <= i < j < |b| ==> NodeLess(root, visited, b[i], b[j])
    ensures a == b
  {
    hide NodeLess;
    NodeOrderTotal(root, visited);
    StrictlySortedUnique(NodeOrder(root, visited), a, b);
  }

  // ------------------------------------------------------------ the answer, told from files and imports

  /** `f` is reported under `node`: the root for the files of its module, its own path otherwise. */
  predicate ReportedAs(m: ModuleIndex, root: string, f: string, node: string) {
    if f in m.files && (f == root || (root !in m.files && root != "" && root + "/" <= f)) then node == root
    else node == f
  }

  /** Edges are imports of listed nodes by others that are nearer than the depth: all of them, and no self-imports. */
  lemma EdgesAre(m: ModuleIndex, root: string, depth: nat, limit: nat, g: Graph, visited: map<string, nat>)
    requires IsWalk(m, root, depth, limit, g, visited)
    ensures forall e :: e in g.edges ==>
      && e.from != e.to && e.from in visited && e.depth == visited[e.from] + 1 <= depth
      && exists f, i :: f in m.files && 0 <= i < |m.imports(f)| && m.imports(f)[i].File?
           && ReportedAs(m, root, f, e.from) && ReportedAs(m, root, m.imports(f)[i].path, e.to)
    ensures forall f, i, a, b ::
      (&& f in m.files && 0 <= i < |m.imports(f)| && m.imports(f)[i].File? && a != b
       && ReportedAs(m, root, f, a) && ReportedAs(m, root, m.imports(f)[i].path, b)
       && a in g.nodes && b in g.nodes && visited[a] < depth) ==>
        Edge(a, b, visited[a] + 1) in g.edges
  {
    hide AtDistance, LeavesOut, NearestFirst, Precedence, Distances, EdgeLess, StrLess, NodeLess, ModuleFiles;
    forall f, node ensures ReportedAs(m, root, f, node) <==> node == NodeOf(m, root, f) {
      ReportedIs(m, root, f, node);
    }
    forall e | e in g.edges
      ensures && e.from != e.to && e.from in visited && e.depth == visited[e.from] + 1 <= depth
        && exists f, i :: f in m.files && 0 <= i < |m.imports(f)| && m.imports(f)[i].File?
             && ReportedAs(m, root, f, e.from) && ReportedAs(m, root, m.imports(f)[i].path, e.to)
    {
      assert (e.from, e.to) in Imports(m, root);
    }
  }

  lemma ReportedIs(m: ModuleIndex, root: string, f: string, node: string)
    ensures ReportedAs(m, root, f, node) <==> node == NodeOf(m, root, f)
  {
  }

  /** Nodes stand by distance and then by path, the root first; edges by depth, source and target. */
  lemma WalkOrder(m: ModuleIndex, root: string, depth: nat, limit: nat, g: Graph, visited: map<string, nat>)
    requires IsWalk(m, root, depth, limit, g, visited)
    ensures g.nodes[0] == root && forall v :: v in g.nodes <==> v in visited
    ensures forall i, j :: 0 < i < j < |g.nodes| ==>
      || visited[g.nodes[i]] < visited[g.nodes[j]]
      || (visited[g.nodes[i]] == visited[g.nodes[j]] && StrLess(g.nodes[i], g.nodes[j]))
    ensures forall i, j :: 0 <= i < j < |g.edges| ==>
      || g.edges[i].depth < g.edges[j].depth
      || (g.edges[i].depth == g.edges[j].depth && StrLess(g.edges[i].from, g.edges[j].from))
      || (g.edges[i].depth == g.edges[j].depth && g.edges[i].from == g.edges[j].from
          && StrLess(g.edges[i].to, g.edges[j].to))
  {
    hide AtDistance, LeavesOut, NearestFirst, Precedence, Distances, EdgesRight, StrLess;
    forall i, j | 0 < i < j < |g.nodes|
      ensures visited[g.nodes[i]] < visited[g.nodes[j]]
        || (visited[g.nodes[i]] == visited[g.nodes[j]] && StrLess(g.nodes[i], g.nodes[j]))
    {
      assert g.nodes[i] != root && g.nodes[j] != root;
      assert NodeLess(root, visited, g.nodes[i], g.nodes[j]);
    }
  }

  /** What is left out within the depth is left out for want of room only: the limit is reached, and nothing listed is
      farther away. */
  lemma LeftOutForRoom(
    m: ModuleIndex, root: string, depth: nat, limit: nat, g: Graph, visited: map<string, nat>, v: string, k: nat)
    requires IsWalk(m, root, depth, limit, g, visited)
    requires k <= depth && Steps(Imports(m, root), root, v, k) && v !in g.nodes
    ensures g.truncated && |g.nodes| == limit && forall u :: u in g.nodes ==> visited[u] <= k
  {
    hide Imports, Steps, Precedence, EdgesRight, StrLess, NodeLess, EdgeLess;
    var d := DistanceExists(Imports(m, root), root, v, k);
  }
}
