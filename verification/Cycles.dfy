/** `find_cycles` (`cycles.rs`): the strongly connected components of a graph of named modules
    that contain a cycle. */
module Cycles {
  import opened Ordering
  import opened Digraph
  import opened TarjanState
  import opened Tarjan

  type NamedEdge = (string, string)

  ghost function EdgeSet(edges: seq<NamedEdge>): set<NamedEdge> {
    set e | e in edges
  }

  ghost function NodeSet(edges: seq<NamedEdge>): set<string> {
    (set e | e in edges :: e.0) + (set e | e in edges :: e.1)
  }

  // ------------------------------------------------------------ what is promised

  /** `c` is the sorted list of a strongly connected component with several members, or of a
      single one with a self-edge. */
  ghost predicate CyclicComponent(E: set<NamedEdge>, c: seq<string>) {
    && c != [] && StrictlySorted(StrLess, c)
    && (forall a, b :: a in c ==> (b in c <==> Mutual(E, a, b)))
    && (|c| > 1 || (c[0], c[0]) in E)
  }

  /** `r` lists exactly the cyclic components, sorted, each once. */
  ghost predicate CycleReport(E: set<NamedEdge>, r: seq<seq<string>>) {
    && StrictlySorted(ListLess, r)
    && forall c :: c in r <==> CyclicComponent(E, c)
  }

  /** The report is a function of the set of edges. */
  lemma ReportUnique(E: set<NamedEdge>, r1: seq<seq<string>>, r2: seq<seq<string>>)
    requires CycleReport(E, r1) && CycleReport(E, r2)
    ensures r1 == r2
  {
    ListLessTotal();
    assert forall c :: c in r1 <==> c in r2;
    StrictlySortedUnique(ListLess, r1, r2);
  }

  /** Neither the order of the input edges nor their repetition matters. */
  lemma InputOrderIrrelevant(e1: seq<NamedEdge>, e2: seq<NamedEdge>, r1: seq<seq<string>>, r2: seq<seq<string>>)
    requires forall e :: e in e1 <==> e in e2
    requires CycleReport(EdgeSet(e1), r1) && CycleReport(EdgeSet(e2), r2)
    ensures r1 == r2
  {
    assert EdgeSet(e1) == EdgeSet(e2);
    ReportUnique(EdgeSet(e1), r1, r2);
  }

  ghost function Endpoints(E: set<NamedEdge>): set<string> {
    (set e | e in E :: e.0) + (set e | e in E :: e.1)
  }

  lemma EndpointsClosed(E: set<NamedEdge>)
    ensures Closed(E, Endpoints(E))
  {
    forall u, v | (u, v) in E ensures v in Endpoints(E) {
      var e := (u, v);
      assert e in E && e.1 == v;
    }
  }

  lemma OnCycleIsEndpoint(E: set<NamedEdge>, a: string)
    requires ReachPlus(E, a, a)
    ensures a in Endpoints(E)
  {
    var w :| (a, w) in E && Reach(E, w, a);
    var e := (a, w);
    assert e in E && e.0 == a;
  }

  /** Every name that lies on a cycle has a component to be listed. */
  lemma ComponentExists(E: set<NamedEdge>, a: string) returns (c: seq<string>)
    requires ReachPlus(E, a, a)
    ensures CyclicComponent(E, c) && a in c
  {
    hide ReachPlus, Reach;
    StrLessTotal();
    ReachRefl(E, a);
    OnCycle(E, a);
    EndpointsClosed(E);
    OnCycleIsEndpoint(E, a);
    var S := set b | b in Endpoints(E) && Mutual(E, a, b);
    c := SetToSorted(StrLess, S);
    forall x ensures x in S <==> Mutual(E, a, x) {
      if Mutual(E, a, x) { ReachClosed(E, Endpoints(E), a, x); }
    }
    forall x, y | x in c ensures y in c <==> Mutual(E, x, y) {
      if Mutual(E, x, y) { MutualTrans(E, a, x, y); }
      if y in c { MutualTrans(E, x, a, y); }
    }
    assert Mutual(E, a, a) && a in S && a in c;
    if (a, a) !in E {
      var b :| b != a && Mutual(E, a, b);
      assert b in S && b in c;
      assert |c| > 1;
    }
  }

  /** A name is on the report exactly when it can reach itself by a non-empty path. */
  lemma ListedIffOnCycle(E: set<NamedEdge>, r: seq<seq<string>>, a: string)
    requires CycleReport(E, r)
    ensures (exists c :: c in r && a in c) <==> ReachPlus(E, a, a)
  {
    hide ReachPlus, Reach;
    if c :| c in r && a in c {
      OnCycle(E, a);
      if |c| > 1 {
        var b := if c[0] == a then c[1] else c[0];
        StrLessTotal();
        assert b in c && b != a;
        assert Mutual(E, a, b);
      }
    }
    if ReachPlus(E, a, a) {
      var c := ComponentExists(E, a);
    }
  }

  /** The report is empty exactly for acyclic inputs. */
  lemma EmptyIffAcyclic(E: set<NamedEdge>, r: seq<seq<string>>)
    requires CycleReport(E, r)
    ensures r == [] <==> forall a :: !ReachPlus(E, a, a)
  {
    hide ReachPlus, Reach;
    if r == [] {
      forall a ensures !ReachPlus(E, a, a) { ListedIffOnCycle(E, r, a); }
    } else {
      assert r[0] in r;
      var a := r[0][0];
      ListedIffOnCycle(E, r, a);
      assert ReachPlus(E, a, a);
    }
  }

  // ------------------------------------------------------------ interning names

  ghost predicate Interned(names: seq<string>, ids: map<string, nat>) {
    && (forall x :: x in ids ==> ids[x] < |names| && names[ids[x]] == x)
    && (forall i :: 0 <= i < |names| ==> names[i] in ids && ids[names[i]] == i)
  }

  method IdOf(name: string, ids0: map<string, nat>, names0: seq<string>)
    returns (id: nat, ids: map<string, nat>, names: seq<string>)
    requires Interned(names0, ids0)
    ensures Interned(names, ids) && names0 <= names
    ensures id < |names| && names[id] == name
    ensures forall x :: x in names <==> x in names0 || x == name
  {
    ids, names := ids0, names0;
    if name in ids { return ids[name], ids, names; }
    id := |names|;
    ids := ids[name := id];
    names := names + [name];
  }

  /** `pairs` are `edges` with every name replaced by its position in `names`. */
  ghost predicate Encodes(edges: seq<NamedEdge>, names: seq<string>, pairs: seq<(nat, nat)>) {
    && |pairs| == |edges|
    && forall i :: 0 <= i < |pairs| ==>
         && pairs[i].0 < |names| && pairs[i].1 < |names|
         && edges[i] == (names[pairs[i].0], names[pairs[i].1])
  }

  method Intern(edges: seq<NamedEdge>) returns (names: seq<string>, pairs: seq<(nat, nat)>)
    ensures Distinct(names) && Encodes(edges, names, pairs)
    ensures forall x :: x in names <==> x in NodeSet(edges)
  {
    var ids: map<string, nat> := map[];
    names, pairs := [], [];
    for i := 0 to |edges|
      invariant Interned(names, ids) && Encodes(edges[..i], names, pairs)
      invariant forall x :: x in names <==> exists j :: 0 <= j < i && (edges[j].0 == x || edges[j].1 == x)
    {
      var a, b;
      a, ids, names := IdOf(edges[i].0, ids, names);
      b, ids, names := IdOf(edges[i].1, ids, names);
      pairs := pairs + [(a, b)];
    }
    assert edges[..|edges|] == edges;
    forall x ensures x in names <==> x in NodeSet(edges) {
      if x in NodeSet(edges) {
        var e :| e in edges && (e.0 == x || e.1 == x);
        var j :| 0 <= j < |edges| && edges[j] == e;
      }
    }
  }

  // ------------------------------------------------------------ adjacency lists

  lemma {:induction false} SumOne(a: seq<nat>, i: nat)
    requires i < |a|
    ensures Sum(a[i := a[i] + 1]) == Sum(a) + 1
  {
    SumUpdate(a, i, a[i] + 1);
  }

  method Adjacency(n: nat, pairs: seq<(nat, nat)>) returns (adj: Graph, selfLoop: seq<bool>)
    requires forall i :: 0 <= i < |pairs| ==> pairs[i].0 < n && pairs[i].1 < n
    ensures |adj| == |selfLoop| == n && IsGraph(adj)
    ensures forall v: nat, w: nat :: v < n ==> (w in adj[v] <==> (v, w) in pairs)
    ensures forall v: nat :: v < n ==> (selfLoop[v] <==> (v, v) in pairs)
    ensures Sum(Degrees(adj)) == |pairs|
  {
    hide Sum;
    var lists := new seq<nat>[n](_ => []);
    var loops := new bool[n](_ => false);
    SumZero(n);
    assert Degrees(lists[..]) == seq(n, _ => 0);
    for i := 0 to |pairs|
      invariant forall v: nat, w: nat :: v < n ==> (w in lists[v] <==> (v, w) in pairs[..i])
      invariant forall v: nat :: v < n ==> (loops[v] <==> (v, v) in pairs[..i])
      invariant forall v, j :: 0 <= v < n && 0 <= j < |lists[v]| ==> lists[v][j] < n
      invariant Sum(Degrees(lists[..])) == i
    {
      var (a, b) := pairs[i];
      ghost var before := Degrees(lists[..]);
      if a == b { loops[a] := true; }
      lists[a] := lists[a] + [b];
      assert pairs[..i + 1] == pairs[..i] + [(a, b)];
      assert Degrees(lists[..]) == before[a := before[a] + 1];
      SumOne(before, a);
    }
    assert pairs[..|pairs|] == pairs;
    adj, selfLoop := lists[..], loops[..];
  }

  // ------------------------------------------------------------ ids and names have the same paths

  /** `g` is the graph of `E` under the numbering `names`. */
  ghost predicate Numbers(g: Graph, names: seq<string>, E: set<NamedEdge>) {
    && |g| == |names| && IsGraph(g) && Distinct(names)
    && (forall e :: e in E ==> e.0 in names && e.1 in names)
    && (forall v: nat, w: nat :: v < |g| && w < |g| ==> (w in g[v] <==> (names[v], names[w]) in E))
  }

  lemma {:induction false} StepsToNames(g: Graph, names: seq<string>, E: set<NamedEdge>, u: nat, v: nat, k: nat)
    requires Numbers(g, names, E) && u < |g| && Steps(Edges(g), u, v, k)
    ensures v < |g| && Steps(E, names[u], names[v], k)
    decreases k
  {
    if k > 0 {
      var w :| (u, w) in Edges(g) && Steps(Edges(g), w, v, k - 1);
      StepsToNames(g, names, E, w, v, k - 1);
      assert (names[u], names[w]) in E;
    }
  }

  lemma {:induction false} StepsToIds(
    g: Graph, names: seq<string>, E: set<NamedEdge>, u: nat, y: string, k: nat)
    returns (v: nat)
    requires Numbers(g, names, E) && u < |g| && Steps(E, names[u], y, k)
    ensures v < |g| && names[v] == y && Steps(Edges(g), u, v, k)
    decreases k
  {
    if k == 0 {
      v := u;
    } else {
      var x :| (names[u], x) in E && Steps(E, x, y, k - 1);
      var e := (names[u], x);
      assert e in E && e.1 in names;
      var w: nat :| w < |names| && names[w] == x;
      v := StepsToIds(g, names, E, w, y, k - 1);
      assert w in g[u];
      var j :| 0 <= j < |g[u]| && g[u][j] == w;
      assert (u, w) in Edges(g);
    }
  }

  lemma ReachNames(g: Graph, names: seq<string>, E: set<NamedEdge>, u: nat, v: nat)
    requires Numbers(g, names, E) && u < |g| && v < |g|
    ensures Reach(Edges(g), u, v) <==> Reach(E, names[u], names[v])
  {
    if Reach(Edges(g), u, v) {
      var k: nat :| Steps(Edges(g), u, v, k);
      StepsToNames(g, names, E, u, v, k);
    }
    if Reach(E, names[u], names[v]) {
      var k: nat :| Steps(E, names[u], names[v], k);
      var w := StepsToIds(g, names, E, u, names[v], k);
      assert w == v;
    }
  }

  lemma ReachStaysNamed(g: Graph, names: seq<string>, E: set<NamedEdge>, u: nat, y: string)
    requires Numbers(g, names, E) && u < |g| && Reach(E, names[u], y)
    ensures y in names
  {
    var k: nat :| Steps(E, names[u], y, k);
    var w := StepsToIds(g, names, E, u, y, k);
  }

  // ------------------------------------------------------------ from components to the report

  ghost predicate InRange(names: seq<string>, c: seq<nat>) {
    forall i :: 0 <= i < |c| ==> c[i] < |names|
  }

  function NamesOf(names: seq<string>, c: seq<nat>): (r: seq<string>)
    requires InRange(names, c)
    ensures |r| == |c| && forall i :: 0 <= i < |c| ==> r[i] == names[c[i]]
  {
    seq(|c|, i requires 0 <= i < |c| => names[c[i]])
  }

  function Members(names: seq<string>, c: seq<nat>): seq<string>
    requires InRange(names, c)
  {
    StableSort(StrLess, NamesOf(names, c))
  }

  lemma MembersListed(names: seq<string>, c: seq<nat>)
    requires InRange(names, c)
    ensures forall y :: y in Members(names, c) <==> exists x :: x in c && names[x] == y
  {
    var m, n := Members(names, c), NamesOf(names, c);
    forall y ensures y in m <==> exists x :: x in c && names[x] == y {
      assert y in m <==> y in multiset(m);
      assert y in n <==> y in multiset(n);
      if y in n { var i :| 0 <= i < |n| && n[i] == y; assert c[i] in c; }
      if x :| x in c && names[x] == y { var i :| 0 <= i < |c| && c[i] == x; assert n[i] == y; }
    }
  }

  lemma MembersSorted(names: seq<string>, c: seq<nat>)
    requires Distinct(names) && Distinct(c) && InRange(names, c)
    ensures StrictlySorted(StrLess, Members(names, c))
  {
    StrLessTotal();
    var n := NamesOf(names, c);
    forall i, j | 0 <= i < j < |n| ensures n[i] != n[j] {
      assert c[i] in c && c[j] in c && c[i] != c[j];
    }
    SortedPermutation(StrLess, n);
  }

  /** Exactly the names of the component of `x` are mutually reachable with its name. */
  lemma NamedMutual(g: Graph, names: seq<string>, E: set<NamedEdge>, c: seq<nat>, x: nat, b: string)
    requires Numbers(g, names, E) && IsComponent(Edges(g), c) && InRange(names, c) && x in c
    ensures x < |names| && ((exists y :: y in c && names[y] == b) <==> Mutual(E, names[x], b))
  {
    hide Reach;
    if y :| y in c && names[y] == b {
      ReachNames(g, names, E, x, y);
      ReachNames(g, names, E, y, x);
    }
    if Mutual(E, names[x], b) {
      ReachStaysNamed(g, names, E, x, b);
      var y: nat :| y < |names| && names[y] == b;
      ReachNames(g, names, E, x, y);
      ReachNames(g, names, E, y, x);
      assert y in c;
    }
  }

  /** A component of ids becomes a component of names. */
  lemma ComponentNames(g: Graph, names: seq<string>, E: set<NamedEdge>, c: seq<nat>)
    requires Numbers(g, names, E) && IsComponent(Edges(g), c) && InRange(names, c)
    ensures var m := Members(names, c);
      |m| == |c| && StrictlySorted(StrLess, m) && forall a, b :: a in m ==> (b in m <==> Mutual(E, a, b))
  {
    hide Mutual, Members, StrictlySorted;
    MembersSorted(names, c);
    MembersListed(names, c);
    MembersCount(names, c);
    var m := Members(names, c);
    forall a, b | a in m ensures b in m <==> Mutual(E, a, b) {
      var x :| x in c && names[x] == a;
      NamedMutual(g, names, E, c, x, b);
    }
  }

  lemma MembersCount(names: seq<string>, c: seq<nat>)
    requires InRange(names, c)
    ensures |Members(names, c)| == |c|
  {
  }

  /** Every cyclic component of names comes from a component of ids. */
  lemma ComponentFound(
    g: Graph, names: seq<string>, E: set<NamedEdge>, comps: seq<seq<nat>>, c: seq<string>)
    returns (i: nat)
    requires Numbers(g, names, E) && AllComponents(g, comps) && CyclicComponent(E, c)
    ensures i < |comps| && InRange(names, comps[i]) && Members(names, comps[i]) == c
  {
    hide Reach;
    StrLessTotal();
    var a := c[0];
    assert a in c;
    var e: NamedEdge;
    if |c| > 1 {
      assert c[1] in c && c[1] != a;
      ReachSplit(E, a, c[1]);
      var w :| (a, w) in E && Reach(E, w, c[1]);
      e := (a, w);
    } else {
      e := (a, a);
    }
    assert e in E && e.0 in names;
    var v: nat :| v < |names| && names[v] == a;
    assert Listed(comps, v);
    i :| 0 <= i < |comps| && v in comps[i];
    AllInRange(g, names, comps);
    ComponentNames(g, names, E, comps[i]);
    MembersListed(names, comps[i]);
    var m := Members(names, comps[i]);
    assert a in m;
    StrictlySortedUnique(StrLess, m, c);
  }

  ghost predicate IsCyclic(c: seq<nat>, selfLoop: seq<bool>) {
    c != [] && (|c| > 1 || (c[|c| - 1] < |selfLoop| && selfLoop[c[|c| - 1]]))
  }

  /** The components that contain a cycle, by name. */
  ghost predicate Kept(
    names: seq<string>, selfLoop: seq<bool>, comps: seq<seq<nat>>, src: seq<nat>, cycles: seq<seq<string>>)
    requires forall i :: 0 <= i < |comps| ==> InRange(names, comps[i])
  {
    && |src| == |cycles|
    && (forall a :: 0 <= a < |src| ==>
          src[a] < |comps| && IsCyclic(comps[src[a]], selfLoop) && cycles[a] == Members(names, comps[src[a]]))
    && (forall a, b :: 0 <= a < b < |src| ==> src[a] < src[b])
    && (forall i: nat :: i < |comps| && IsCyclic(comps[i], selfLoop) ==> i in src)
  }

  lemma KeptCyclic(g: Graph, names: seq<string>, E: set<NamedEdge>, selfLoop: seq<bool>, c: seq<nat>)
    requires Numbers(g, names, E) && IsComponent(Edges(g), c) && InRange(names, c)
    requires |selfLoop| == |g| && forall v: nat :: v < |g| ==> (selfLoop[v] <==> (names[v], names[v]) in E)
    ensures IsCyclic(c, selfLoop) <==> CyclicComponent(E, Members(names, c))
  {
    hide Reach, Mutual, Steps;
    ComponentNames(g, names, E, c);
    assert c[|c| - 1] in c;
    if |c| == 1 {
      MembersListed(names, c);
      var m := Members(names, c);
      assert m[0] in m;
      assert m[0] == names[c[0]];
    }
  }

  lemma AllInRange(g: Graph, names: seq<string>, comps: seq<seq<nat>>)
    requires |g| == |names| && AllComponents(g, comps)
    ensures forall i :: 0 <= i < |comps| ==> InRange(names, comps[i])
  {
    forall i, j | 0 <= i < |comps| && 0 <= j < |comps[i]| ensures comps[i][j] < |names| {
      assert comps[i] in comps && comps[i][j] in comps[i];
    }
  }

  lemma KeptDistinct(
    g: Graph, names: seq<string>, selfLoop: seq<bool>, comps: seq<seq<nat>>, src: seq<nat>, cycles: seq<seq<string>>)
    requires |g| == |names| && Distinct(names) && AllComponents(g, comps)
    requires forall i :: 0 <= i < |comps| ==> InRange(names, comps[i])
    requires Kept(names, selfLoop, comps, src, cycles)
    ensures Distinct(cycles)
  {
    hide IsComponent, Members;
    forall a, b | 0 <= a < b < |cycles| ensures cycles[a] != cycles[b] {
      var p, q := comps[src[a]], comps[src[b]];
      assert p[0] in p && p[0] !in q;
      DisjointMembers(names, p, q);
    }
  }

  lemma DisjointMembers(names: seq<string>, p: seq<nat>, q: seq<nat>)
    requires Distinct(names) && InRange(names, p) && InRange(names, q) && p != [] && p[0] !in q
    ensures Members(names, p) != Members(names, q)
  {
    hide Members;
    MembersListed(names, p);
    MembersListed(names, q);
    assert p[0] in p && names[p[0]] in Members(names, p);
  }

  lemma KeptReport(
    g: Graph, names: seq<string>, E: set<NamedEdge>, selfLoop: seq<bool>, comps: seq<seq<nat>>, src: seq<nat>,
    cycles: seq<seq<string>>)
    requires Numbers(g, names, E) && AllComponents(g, comps)
    requires |selfLoop| == |g| && forall v: nat :: v < |g| ==> (selfLoop[v] <==> (names[v], names[v]) in E)
    requires forall i :: 0 <= i < |comps| ==> InRange(names, comps[i])
    requires Kept(names, selfLoop, comps, src, cycles)
    ensures forall c :: c in cycles <==> CyclicComponent(E, c)
  {
    hide CyclicComponent, IsComponent;
    forall c ensures c in cycles <==> CyclicComponent(E, c) {
      if c in cycles {
        var a :| 0 <= a < |cycles| && cycles[a] == c;
        assert comps[src[a]] in comps;
        KeptCyclic(g, names, E, selfLoop, comps[src[a]]);
      }
      if CyclicComponent(E, c) {
        var i := ComponentFound(g, names, E, comps, c);
        assert comps[i] in comps;
        KeptCyclic(g, names, E, selfLoop, comps[i]);
        assert i in src;
        var a :| 0 <= a < |src| && src[a] == i;
        assert cycles[a] == c;
      }
    }
  }

  lemma SortReport(E: set<NamedEdge>, cycles: seq<seq<string>>)
    requires Distinct(cycles) && forall c :: c in cycles <==> CyclicComponent(E, c)
    ensures CycleReport(E, StableSort(ListLess, cycles))
  {
    hide CyclicComponent;
    ListLessTotal();
    SortedPermutation(ListLess, cycles);
  }

  lemma GraphNumbers(edges: seq<NamedEdge>, names: seq<string>, pairs: seq<(nat, nat)>, g: Graph)
    requires Distinct(names) && Encodes(edges, names, pairs)
    requires |g| == |names| && IsGraph(g) && forall v: nat, w: nat :: v < |g| ==> (w in g[v] <==> (v, w) in pairs)
    ensures Numbers(g, names, EdgeSet(edges))
    ensures forall v: nat :: v < |g| ==> ((v, v) in pairs <==> (names[v], names[v]) in EdgeSet(edges))
  {
    forall v: nat, w: nat | v < |g| && w < |g| ensures (v, w) in pairs <==> (names[v], names[w]) in EdgeSet(edges) {
      if (v, w) in pairs {
        var i :| 0 <= i < |pairs| && pairs[i] == (v, w);
        assert edges[i] in edges;
      }
      if (names[v], names[w]) in edges {
        var i :| 0 <= i < |edges| && edges[i] == (names[v], names[w]);
        assert pairs[i] == (v, w);
      }
    }
    forall e | e in EdgeSet(edges) ensures e.0 in names && e.1 in names {
      var i :| 0 <= i < |edges| && edges[i] == e;
    }
  }

  /** The cycle report of `edges`; the search runs one round per node and per edge, and pushes
      every node once. */
  method FindCycles(edges: seq<NamedEdge>) returns (cycles: seq<seq<string>>, ghost rounds: nat, ghost pushes: nat)
    ensures CycleReport(EdgeSet(edges), cycles)
    ensures rounds == |NodeSet(edges)| + |edges| && pushes == |NodeSet(edges)|
  {
    hide CyclicComponent, CycleReport, IsComponent;
    var names, pairs := Intern(edges);
    DistinctSize(names, NodeSet(edges));
    var adj, selfLoop := Adjacency(|names|, pairs);
    GraphNumbers(edges, names, pairs, adj);
    var comps;
    comps, rounds, pushes := Components(adj);
    cycles := Filter(names, selfLoop, adj, comps, EdgeSet(edges));
    SortReport(EdgeSet(edges), cycles);
    cycles := StableSort(ListLess, cycles);
  }

  /** Keeps the popped components that contain a cycle, each with its members sorted. */
  method Filter(names: seq<string>, selfLoop: seq<bool>, ghost g: Graph, comps: seq<seq<nat>>, ghost E: set<NamedEdge>)
    returns (cycles: seq<seq<string>>)
    requires Numbers(g, names, E) && AllComponents(g, comps)
    requires |selfLoop| == |g| && forall v: nat :: v < |g| ==> (selfLoop[v] <==> (names[v], names[v]) in E)
    ensures Distinct(cycles) && forall c :: c in cycles <==> CyclicComponent(E, c)
  {
    hide CyclicComponent, Kept, AllComponents, IsCyclic;
    AllInRange(g, names, comps);
    cycles := [];
    ghost var src: seq<nat> := [];
    NothingKept(names, selfLoop);
    for i := 0 to |comps|
      invariant forall j :: 0 <= j < i ==> InRange(names, comps[..i][j])
      invariant Kept(names, selfLoop, comps[..i], src, cycles)
    {
      var comp := comps[i];
      ComponentHasLast(g, selfLoop, comps, i);
      assert comps[..i + 1] == comps[..i] + [comp];
      KeepNext(names, selfLoop, comps[..i], src, cycles, comp);
      if |comp| > 1 || selfLoop[comp[|comp| - 1]] {
        cycles := cycles + [StableSort(StrLess, NamesOf(names, comp))];
        src := src + [i];
      }
    }
    assert comps[..|comps|] == comps;
    KeptDistinct(g, names, selfLoop, comps, src, cycles);
    KeptReport(g, names, E, selfLoop, comps, src, cycles);
  }

  lemma NothingKept(names: seq<string>, selfLoop: seq<bool>)
    ensures Kept(names, selfLoop, [], [], [])
  {
  }

  lemma ComponentHasLast(g: Graph, selfLoop: seq<bool>, comps: seq<seq<nat>>, i: nat)
    requires AllComponents(g, comps) && |selfLoop| == |g| && i < |comps|
    ensures comps[i] != [] && comps[i][|comps[i]| - 1] < |selfLoop|
    ensures IsCyclic(comps[i], selfLoop) <==> |comps[i]| > 1 || selfLoop[comps[i][|comps[i]| - 1]]
  {
    var comp := comps[i];
    assert comp in comps && IsComponent(Edges(g), comp);
    assert comp[|comp| - 1] in comp;
  }

  lemma KeepNext(
    names: seq<string>, selfLoop: seq<bool>, comps: seq<seq<nat>>, src: seq<nat>, cycles: seq<seq<string>>,
    comp: seq<nat>)
    requires (forall i :: 0 <= i < |comps| ==> InRange(names, comps[i])) && InRange(names, comp)
    requires Kept(names, selfLoop, comps, src, cycles)
    ensures forall i :: 0 <= i < |comps + [comp]| ==> InRange(names, (comps + [comp])[i])
    ensures IsCyclic(comp, selfLoop) ==>
      Kept(names, selfLoop, comps + [comp], src + [|comps|], cycles + [Members(names, comp)])
    ensures !IsCyclic(comp, selfLoop) ==> Kept(names, selfLoop, comps + [comp], src, cycles)
  {
    hide Members, IsCyclic, InRange;
    var all := comps + [comp];
    assert all[|comps|] == comp;
    forall i: nat | i < |all| && IsCyclic(all[i], selfLoop) ensures i in src + [|comps|] {
      if i < |comps| { assert i in src; } else { assert (src + [|comps|])[|src|] == i; }
    }
  }
}
