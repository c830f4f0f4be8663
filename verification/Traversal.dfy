/** The bounded walk over relations (`traversal.rs`): with any budget it returns exactly that much
    of the unbounded walk. */
module Traversal {
  import opened Limits
  import opened Wrappers

  const MIN_FIRST_HOP_PAGE: nat := 64

  datatype Hit = Hit(relation: int, fromId: int, fromName: string, path: string, depth: nat)

  /** What the queries return: the rows of the first hop, which of them reach the start, the
      symbols started from, the relations of one symbol and the symbol a hit is proven to lead to. */
  datatype Relations = Relations(
    rows: seq<Hit>, keep: Hit -> bool, start: seq<int>, hits: int -> seq<Hit>, next: Hit -> Option<int>)

  function Prefix<T>(s: seq<T>, n: nat): (p: seq<T>)
    ensures |p| == Min(n, |s|) && p <= s
  {
    if n <= |s| then s[..n] else s
  }

  function Slice<T>(s: seq<T>, offset: nat, limit: nat): (p: seq<T>)
    ensures |p| == (if offset >= |s| then 0 else if |s| - offset <= limit then |s| - offset else limit)
    ensures forall i :: 0 <= i < |p| ==> p[i] == s[offset + i]
  {
    if offset >= |s| then [] else s[offset..Min(offset + limit, |s|)]
  }

  // ------------------------------------------------------------ the unbounded walk

  function Filter<T>(keep: T -> bool, s: seq<T>): seq<T> {
    if s == [] then []
    else Filter(keep, s[..|s| - 1]) + (if keep(s[|s| - 1]) then [s[|s| - 1]] else [])
  }

  function Stamp(hits: seq<Hit>, level: nat): seq<Hit> {
    seq(|hits|, i requires 0 <= i < |hits| => hits[i].(depth := level))
  }

  function Seen(r: Relations, hits: seq<Hit>, visited: set<int>): set<int> {
    if hits == [] then visited
    else
      var before := Seen(r, hits[..|hits| - 1], visited);
      match r.next(hits[|hits| - 1]) case None => before case Some(n) => before + {n}
  }

  /** The nodes first led to by `hits`, in order. */
  function Frontier(r: Relations, hits: seq<Hit>, visited: set<int>): seq<int> {
    if hits == [] then []
    else
      var before := Frontier(r, hits[..|hits| - 1], visited);
      match r.next(hits[|hits| - 1])
      case None => before
      case Some(n) => if n in Seen(r, hits[..|hits| - 1], visited) then before else before + [n]
  }

  function Gather(r: Relations, nodes: seq<int>): seq<Hit> {
    if nodes == [] then [] else Gather(r, nodes[..|nodes| - 1]) + r.hits(nodes[|nodes| - 1])
  }

  /** The walk from level `level` on, whose hits are `hits`. */
  function Walk(r: Relations, hits: seq<Hit>, visited: set<int>, level: nat, depth: nat): seq<Hit>
    decreases depth - level
  {
    var stamped := Stamp(hits, level);
    var frontier := Frontier(r, stamped, visited);
    stamped + (if level >= depth || frontier == [] then []
               else Walk(r, Gather(r, frontier), Seen(r, stamped, visited), level + 1, depth))
  }

  function ClampDepth(depth: nat): nat { Clamp(depth, 1, MAX_QUERY_DEPTH) }

  function FullWalk(r: Relations, depth: nat): seq<Hit> {
    Walk(r, Filter(r.keep, r.rows), set n | n in r.start, 1, ClampDepth(depth))
  }

  // ------------------------------------------------------------ the first hop

  /** `some` is the beginning of `all`, and all of it unless it holds at least `room`. */
  predicate Enough<T(==)>(some: seq<T>, all: seq<T>, room: nat) {
    some <= all && (some == all || |some| >= room)
  }

  lemma {:induction false} FilterAppend<T>(keep: T -> bool, a: seq<T>, b: seq<T>)
    ensures Filter(keep, a + b) == Filter(keep, a) + Filter(keep, b)
    decreases |b|
  {
    if b == [] {
      assert a + b == a;
    } else {
      FilterAppend(keep, a, b[..|b| - 1]);
      assert (a + b)[..|a + b| - 1] == a + b[..|b| - 1];
    }
  }

  /** Keeps the rows of one page, until there are enough. */
  method KeepRows(keep: Hit -> bool, rows: seq<Hit>, kept0: seq<Hit>, budget: nat) returns (kept: seq<Hit>)
    requires |kept0| < budget
    ensures kept == Prefix(kept0 + Filter(keep, rows), budget)
  {
    hide Filter;
    kept := kept0;
    NothingFiltered(keep);
    for i := 0 to |rows|
      invariant kept == kept0 + Filter(keep, rows[..i]) && |kept| < budget
    {
      FilterNext(keep, rows, i);
      if keep(rows[i]) {
        kept := kept + [rows[i]];
        if |kept| >= budget {
          FilterAppend(keep, rows[..i + 1], rows[i + 1..]);
          assert rows[..i + 1] + rows[i + 1..] == rows;
          return;
        }
      }
    }
    assert rows[..|rows|] == rows;
  }

  lemma NothingFiltered<T>(keep: T -> bool)
    ensures Filter(keep, []) == []
  {
  }

  lemma FilterNext<T>(keep: T -> bool, s: seq<T>, i: nat)
    requires i < |s|
    ensures Filter(keep, s[..i + 1]) == if keep(s[i]) then Filter(keep, s[..i]) + [s[i]] else Filter(keep, s[..i])
  {
    assert s[..i + 1][..i] == s[..i];
  }

  /** Hop 1, read in pages that double until enough of it is kept. */
  method FirstHopFiltered(r: Relations, budget: nat) returns (kept: seq<Hit>)
    requires budget > 0
    ensures kept == Prefix(Filter(r.keep, r.rows), budget)
  {
    kept := [];
    var offset, page := 0, Max(budget, MIN_FIRST_HOP_PAGE);
    while true
      invariant offset <= |r.rows| && page >= MIN_FIRST_HOP_PAGE
      invariant kept == Filter(r.keep, r.rows[..offset]) && |kept| < budget
      decreases |r.rows| - offset
    {
      hide Filter;
      var rows := Slice(r.rows, offset, page);
      var exhausted := |rows| < page;
      NextPage(r, offset, rows, page, budget);
      kept := KeepRows(r.keep, rows, kept, budget);
      offset := offset + |rows|;
      if |kept| >= budget || exhausted { return; }
      page := Min(page * 2, USIZE_MAX);
    }
  }

  lemma NextPage(r: Relations, offset: nat, rows: seq<Hit>, page: nat, budget: nat)
    requires offset <= |r.rows| && rows == Slice(r.rows, offset, page)
    ensures var kept := Filter(r.keep, r.rows[..offset]) + Filter(r.keep, rows);
      && offset + |rows| <= |r.rows|
      && kept == Filter(r.keep, r.rows[..offset + |rows|])
      && (|kept| >= budget || |rows| < page ==> Prefix(kept, budget) == Prefix(Filter(r.keep, r.rows), budget))
      && (|kept| < budget ==> Prefix(kept, budget) == kept)
  {
    hide Filter;
    var n := offset + |rows|;
    FilterAppend(r.keep, r.rows[..offset], rows);
    assert r.rows[..offset] + rows == r.rows[..n];
    FilterAppend(r.keep, r.rows[..n], r.rows[n..]);
    assert r.rows[..n] + r.rows[n..] == r.rows;
    if |rows| < page { assert r.rows[..n] == r.rows; }
  }

  // ------------------------------------------------------------ the walk, bounded

  /** One query for the relations of a node: at most `want` of them, or all. */
  function Fetch(r: Relations, node: int, want: Option<nat>): seq<Hit> {
    match want case None => r.hits(node) case Some(n) => Prefix(r.hits(node), n)
  }

  lemma {:induction false} GatherPrefix(r: Relations, nodes: seq<int>, n: nat)
    requires n <= |nodes|
    ensures Gather(r, nodes[..n]) <= Gather(r, nodes)
    decreases |nodes|
  {
    if n == |nodes| {
      assert nodes[..n] == nodes;
    } else {
      GatherPrefix(r, nodes[..|nodes| - 1], n);
      assert nodes[..|nodes| - 1][..n] == nodes[..n];
    }
  }

  /** The hits of the next level, as far as there is room. */
  method NextLevel(r: Relations, frontier: seq<int>, room: Option<nat>) returns (hits: seq<Hit>)
    requires room.Some? ==> room.value > 0
    ensures hits <= Gather(r, frontier)
    ensures hits == Gather(r, frontier) || (room.Some? && |hits| >= room.value)
  {
    hits := [];
    for i := 0 to |frontier|
      invariant hits == Gather(r, frontier[..i])
      invariant room.Some? ==> |hits| < room.value
    {
      var want := match room case None => None case Some(n) => Some(n - |hits|);
      GatherPrefix(r, frontier, i + 1);
      assert frontier[..i + 1][..i] == frontier[..i];
      hits := hits + Fetch(r, frontier[i], want);
      if room.Some? && |hits| >= room.value { return; }
    }
    assert frontier[..|frontier|] == frontier;
  }

  lemma StampSnoc(hits: seq<Hit>, i: nat, level: nat)
    requires i < |hits|
    ensures Stamp(hits[..i + 1], level) == Stamp(hits[..i], level) + [hits[i].(depth := level)]
    ensures Stamp(hits[..i + 1], level)[..i] == Stamp(hits[..i], level)
  {
  }

  /** The hits of one level, until the budget is used up. */
  method ReadLevel(r: Relations, hits: seq<Hit>, level: nat, budget: nat, results0: seq<Hit>, visited0: set<int>)
    returns (results: seq<Hit>, visited: set<int>, frontier: seq<int>, full: bool)
    requires |results0| < budget
    ensures results == Prefix(results0 + Stamp(hits, level), budget)
    ensures full <==> |results0| + |hits| >= budget
    ensures !full ==> |results| < budget
    ensures !full ==>
      visited == Seen(r, Stamp(hits, level), visited0) && frontier == Frontier(r, Stamp(hits, level), visited0)
  {
    results, visited, frontier, full := results0, visited0, [], false;
    for i := 0 to |hits|
      invariant results == results0 + Stamp(hits[..i], level) && |results| < budget && !full
      invariant visited == Seen(r, Stamp(hits[..i], level), visited0)
      invariant frontier == Frontier(r, Stamp(hits[..i], level), visited0)
    {
      hide Prefix;
      StampSnoc(hits, i, level);
      var hit := hits[i].(depth := level);
      var next := r.next(hit);
      if next.Some? && next.value !in visited {
        visited := visited + {next.value};
        frontier := frontier + [next.value];
      }
      results := results + [hit];
      if |results| >= budget {
        full := true;
        FullLevel(results0, hits, i, level, budget);
        return;
      }
    }
    assert hits[..|hits|] == hits;
  }

  lemma FullLevel(results0: seq<Hit>, hits: seq<Hit>, i: nat, level: nat, budget: nat)
    requires i < |hits| && |results0| + i + 1 == budget
    ensures Prefix(results0 + Stamp(hits, level), budget) ==
      results0 + Stamp(hits[..i], level) + [hits[i].(depth := level)]
  {
  }

  lemma PrefixOfLonger<T>(a: seq<T>, b: seq<T>, n: nat)
    requires a <= b && (a == b || |a| >= n)
    ensures Prefix(a, n) == Prefix(b, n)
  {
  }

  /** The walk from `first`, which is hop 1 as far as the budget needs it. */
  method Bfs(r: Relations, first: seq<Hit>, ghost hop1: seq<Hit>, depth0: nat, budget: nat) returns (results: seq<Hit>)
    requires Enough(first, hop1, budget)
    ensures results == Prefix(Walk(r, hop1, set n | n in r.start, 1, ClampDepth(depth0)), budget)
  {
    hide Gather, Frontier, Seen, Stamp, Prefix, Walk;
    var depth := ClampDepth(depth0);
    ghost var full := Walk(r, hop1, set n | n in r.start, 1, depth);
    if budget == 0 {
      PrefixOfNone(full);
      return [];
    }
    var visited := set n | n in r.start;
    results := [];
    var hits, level := first, 1;
    ghost var rest := hop1;
    while true
      invariant 1 <= level <= depth && |results| < budget
      invariant Enough(hits, rest, budget - |results|)
      invariant full == results + Walk(r, rest, visited, level, depth)
      decreases depth - level
    {
      WalkStep(r, results, hits, rest, visited, level, depth, budget);
      var frontier, filled;
      results, visited, frontier, filled := ReadLevel(r, hits, level, budget, results, visited);
      if filled { return; }
      if level == depth || frontier == [] {
        assert results + [] == results;
        PrefixOfAll(results, budget);
        break;
      }
      var room := if budget == USIZE_MAX then None else Some(budget - |results|);
      hits := NextLevel(r, frontier, room);
      rest := Gather(r, frontier);
      level := level + 1;
    }
  }

  /** The walk below the hits of one level. */
  ghost function Deeper(r: Relations, stamped: seq<Hit>, visited: set<int>, level: nat, depth: nat): seq<Hit> {
    var frontier := Frontier(r, stamped, visited);
    if level >= depth || frontier == [] then []
    else Walk(r, Gather(r, frontier), Seen(r, stamped, visited), level + 1, depth)
  }

  lemma PrefixOfNone(s: seq<Hit>)
    ensures Prefix(s, 0) == []
  {
  }

  /** Reading one level either fills the budget with the beginning of the whole walk, or leaves the
      walk of the next level to read. */
  lemma WalkStep(
    r: Relations, results: seq<Hit>, hits: seq<Hit>, rest: seq<Hit>, visited: set<int>, level: nat, depth: nat,
    budget: nat)
    requires level <= depth && |results| < budget && Enough(hits, rest, budget - |results|)
    ensures |results| + |hits| >= budget ==>
      Prefix(results + Stamp(hits, level), budget) == Prefix(results + Walk(r, rest, visited, level, depth), budget)
    ensures |results| + |hits| < budget ==>
      results + Walk(r, rest, visited, level, depth) ==
        Prefix(results + Stamp(hits, level), budget) + Deeper(r, Stamp(hits, level), visited, level, depth)
  {
    hide Gather, Frontier, Seen;
    if |results| + |hits| >= budget {
      FilledLevel(r, results, visited, hits, rest, level, depth, budget);
    } else {
      WholeLevel(results, hits, level, budget);
    }
  }

  lemma PrefixOfAll(s: seq<Hit>, n: nat)
    requires |s| <= n
    ensures Prefix(s, n) == s
  {
  }

  lemma WholeLevel(results0: seq<Hit>, hits: seq<Hit>, level: nat, budget: nat)
    requires |results0| + |hits| < budget
    ensures Prefix(results0 + Stamp(hits, level), budget) == results0 + Stamp(hits, level)
  {
  }

  /** When a level fills the budget, what was read is that much of the whole walk. */
  lemma FilledLevel(
    r: Relations, results: seq<Hit>, visited: set<int>, hits: seq<Hit>, rest: seq<Hit>, level: nat, depth: nat,
    budget: nat)
    requires hits <= rest && |results| + |hits| >= budget
    ensures Prefix(results + Stamp(hits, level), budget) ==
      Prefix(results + Walk(r, rest, visited, level, depth), budget)
  {
    var a, b := results + Stamp(hits, level), results + Walk(r, rest, visited, level, depth);
    assert Stamp(hits, level) <= Stamp(rest, level);
    assert Stamp(rest, level) <= Walk(r, rest, visited, level, depth);
    PrefixOfLonger(a, b, budget);
  }

  /** A bounded walk of any of the three directions. */
  method FindBfs(r: Relations, depth: nat, budget: nat) returns (results: seq<Hit>)
    ensures results == Prefix(FullWalk(r, depth), budget)
  {
    hide Walk, Filter;
    if budget == 0 { return []; }
    var first := FirstHopFiltered(r, budget);
    results := Bfs(r, first, Filter(r.keep, r.rows), depth, budget);
  }

  // ------------------------------------------------------------ what the walk lists

  /** `h`, found at depth `k`, leads to `n`. */
  predicate LeadsTo(r: Relations, h: Hit, k: nat, n: int) { r.next(h.(depth := k)) == Some(n) }

  /** `n` is first led to at distance `k`: by a kept row for 1, else by a relation of a node first led to at distance
      `k - 1`. It is none of the symbols started from. */
  ghost predicate FirstLedTo(r: Relations, n: int, k: nat)
    decreases k, 1
  {
    k > 0 && n !in r.start && LedTo(r, n, k) && forall j: nat :: 0 < j < k ==> !FirstLedTo(r, n, j)
  }

  ghost predicate LedTo(r: Relations, n: int, k: nat)
    requires k > 0
    decreases k, 0
  {
    if k == 1 then exists h :: h in r.rows && r.keep(h) && LeadsTo(r, h, 1, n)
    else exists m, h :: FirstLedTo(r, m, k - 1) && h in r.hits(m) && LeadsTo(r, h, k, n)
  }

  /** `nodes` are those first led to at distance `k`, each once. */
  ghost predicate NodesAt(r: Relations, nodes: seq<int>, k: nat) {
    Distinct(nodes) && forall n :: n in nodes <==> FirstLedTo(r, n, k)
  }

  function Joined(levels: seq<seq<Hit>>): seq<Hit> {
    if levels == [] then [] else levels[0] + Joined(levels[1..])
  }

  /** The relations of all of `nodes`, node by node, at depth `depth`. */
  function HitsOf(r: Relations, nodes: seq<int>, depth: nat): seq<Hit> {
    if nodes == [] then []
    else
      var hits := r.hits(nodes[|nodes| - 1]);
      HitsOf(r, nodes[..|nodes| - 1], depth) +
        seq(|hits|, i requires 0 <= i < |hits| => hits[i].(depth := depth))
  }

  /** `kept` is made of the rows to keep, all of them and in order, at depth 1; `at` says where they stand. */
  ghost predicate KeptRows(r: Relations, kept: seq<Hit>, at: seq<nat>) {
    && |at| == |kept|
    && (forall i, j :: 0 <= i < j < |at| ==> at[i] < at[j])
    && (forall i :: 0 <= i < |at| ==> at[i] < |r.rows| && kept[i] == r.rows[at[i]].(depth := 1))
    && (forall i: nat :: i < |r.rows| ==> (r.keep(r.rows[i]) <==> i in at))
  }

  ghost predicate Distinct(nodes: seq<int>) {
    forall i, j :: 0 <= i < j < |nodes| ==> nodes[i] != nodes[j]
  }

  /** Position `i` leads to `a`, and no position up to there to `b`. */
  ghost predicate LedFirst(r: Relations, hits: seq<Hit>, a: int, b: int, i: nat) {
    i < |hits| && r.next(hits[i]) == Some(a) && forall j :: 0 <= j <= i ==> r.next(hits[j]) != Some(b)
  }

  ghost predicate LedBefore(r: Relations, hits: seq<Hit>, a: int, b: int) {
    exists i :: LedFirst(r, hits, a, b, i)
  }

  /** `nodes` stand in the order in which `hits` first lead to them. */
  ghost predicate LedInOrder(r: Relations, hits: seq<Hit>, nodes: seq<int>) {
    forall i, j :: 0 <= i < j < |nodes| ==> LedBefore(r, hits, nodes[i], nodes[j])
  }

  /** `levels` are the levels of a walk from level `from` on, and `nodes` the nodes whose relations they list. */
  ghost predicate Levels(r: Relations, levels: seq<seq<Hit>>, nodes: seq<seq<int>>, from: nat) {
    && |levels| == |nodes|
    && (forall k :: 0 < k < |nodes| ==> NodesAt(r, nodes[k], from + k - 1))
    && (forall k :: 0 < k < |levels| ==> levels[k] == HitsOf(r, nodes[k], from + k))
    && (forall k :: 0 < k < |levels| ==> LedInOrder(r, levels[k - 1], nodes[k]))
  }

  lemma {:induction false} FrontierIs(r: Relations, hits: seq<Hit>, visited: set<int>)
    ensures Distinct(Frontier(r, hits, visited))
    ensures forall n ::
      n in Frontier(r, hits, visited) <==> n !in visited && exists h :: h in hits && r.next(h) == Some(n)
    ensures forall n ::
      n in Seen(r, hits, visited) <==> n in visited || exists h :: h in hits && r.next(h) == Some(n)
  {
    if hits != [] {
      var before, last := hits[..|hits| - 1], hits[|hits| - 1];
      FrontierIs(r, before, visited);
      assert forall h :: h in hits <==> h in before || h == last;
    }
  }

  /** One more hit keeps the order, also when it leads to something new. */
  lemma OrderSnoc(r: Relations, hits: seq<Hit>, before: seq<int>, last: int)
    requires hits != [] && LedInOrder(r, hits[..|hits| - 1], before)
    requires forall n :: n in before ==> exists h :: h in hits[..|hits| - 1] && r.next(h) == Some(n)
    requires forall h :: h in hits[..|hits| - 1] ==> r.next(h) != Some(last)
    ensures LedInOrder(r, hits, before + [last])
  {
    var n, nodes := |hits| - 1, before + [last];
    forall i, j | 0 <= i < j < |nodes| ensures LedBefore(r, hits, nodes[i], nodes[j]) {
      if j < |before| {
        assert LedBefore(r, hits[..n], before[i], before[j]);
        var k: nat :| LedFirst(r, hits[..n], before[i], before[j], k);
        assert LedFirst(r, hits, nodes[i], nodes[j], k);
      } else {
        assert before[i] in before;
        var h :| h in hits[..n] && r.next(h) == Some(before[i]);
        var k :| 0 <= k < n && hits[..n][k] == h;
        forall l | 0 <= l <= k ensures r.next(hits[l]) != Some(last) { assert hits[..n][l] in hits[..n]; }
        assert LedFirst(r, hits, nodes[i], nodes[j], k);
      }
    }
  }

  lemma SameOrder(r: Relations, hits: seq<Hit>, before: seq<int>)
    requires hits != [] && LedInOrder(r, hits[..|hits| - 1], before)
    ensures LedInOrder(r, hits, before)
  {
    var n := |hits| - 1;
    forall i, j | 0 <= i < j < |before| ensures LedBefore(r, hits, before[i], before[j]) {
      assert LedBefore(r, hits[..n], before[i], before[j]);
      var k: nat :| LedFirst(r, hits[..n], before[i], before[j], k);
      assert LedFirst(r, hits, before[i], before[j], k);
    }
  }

  lemma {:induction false} FrontierInOrder(r: Relations, hits: seq<Hit>, visited: set<int>)
    ensures LedInOrder(r, hits, Frontier(r, hits, visited))
  {
    hide LedInOrder;
    if hits == [] {
      NothingInOrder(r);
    } else {
      var n := |hits| - 1;
      var before := Frontier(r, hits[..n], visited);
      FrontierInOrder(r, hits[..n], visited);
      FrontierIs(r, hits[..n], visited);
      SameOrder(r, hits, before);
      var next := r.next(hits[n]);
      if next.Some? && next.value !in Seen(r, hits[..n], visited) {
        OrderSnoc(r, hits, before, next.value);
      }
    }
  }

  lemma NothingInOrder(r: Relations)
    ensures LedInOrder(r, [], [])
  {
  }

  lemma {:induction false} GatherIs(r: Relations, nodes: seq<int>, depth: nat)
    ensures forall h :: h in Gather(r, nodes) <==> exists m :: m in nodes && h in r.hits(m)
    ensures Stamp(Gather(r, nodes), depth) == HitsOf(r, nodes, depth)
  {
    if nodes != [] {
      var before, last := nodes[..|nodes| - 1], nodes[|nodes| - 1];
      GatherIs(r, before, depth);
      assert forall m :: m in nodes <==> m in before || m == last;
    }
  }

  /** Where nothing is led to, nothing is further on. */
  lemma {:induction false} NoneDeeper(r: Relations, from: nat, k: nat)
    requires 0 < from <= k && NodesAt(r, [], from)
    ensures NodesAt(r, [], k)
  {
    if k > from {
      NoneDeeper(r, from, k - 1);
      var j: nat := k - 1;
      forall m ensures !FirstLedTo(r, m, j) { assert m !in []; }
      forall n ensures !FirstLedTo(r, n, k) { NotLed(r, n, j, k); }
    }
  }

  lemma NotLed(r: Relations, n: int, j: nat, k: nat)
    requires j > 0 && k == j + 1 && forall m :: !FirstLedTo(r, m, j)
    ensures !LedTo(r, n, k)
  {
  }

  /** All nodes first led to before `level`, and the start. */
  ghost predicate VisitedBefore(r: Relations, visited: set<int>, level: nat) {
    forall n :: n in visited <==> n in r.start || LedToBefore(r, n, level)
  }

  ghost predicate LedToBefore(r: Relations, n: int, level: nat) {
    exists j: nat :: j < level && FirstLedTo(r, n, j)
  }

  lemma LedToNext(r: Relations, n: int, level: nat)
    ensures LedToBefore(r, n, level + 1) <==> LedToBefore(r, n, level) || FirstLedTo(r, n, level)
  {
    if LedToBefore(r, n, level) {
      var j: nat :| j < level && FirstLedTo(r, n, j);
      assert j < level + 1 && FirstLedTo(r, n, j);
    }
    if FirstLedTo(r, n, level) { assert level < level + 1; }
  }

  /** `hits` lead to what is led to at `level`, be it for the first time or not. */
  ghost predicate LeadingHits(r: Relations, hits: seq<Hit>, level: nat) {
    level > 0 && forall n :: SomeLeads(r, hits, level, n) <==> LedTo(r, n, level)
  }

  ghost predicate SomeLeads(r: Relations, hits: seq<Hit>, level: nat, n: int) {
    exists h :: h in hits && LeadsTo(r, h, level, n)
  }

  lemma StampedLead(r: Relations, hits: seq<Hit>, level: nat, n: int)
    ensures (exists h :: h in Stamp(hits, level) && r.next(h) == Some(n)) <==>
      SomeLeads(r, hits, level, n)
  {
    var stamped := Stamp(hits, level);
    if h :| h in stamped && r.next(h) == Some(n) {
      var i :| 0 <= i < |stamped| && stamped[i] == h;
      assert hits[i] in hits && LeadsTo(r, hits[i], level, n);
    }
    if h :| h in hits && LeadsTo(r, h, level, n) {
      var i :| 0 <= i < |hits| && hits[i] == h;
      assert stamped[i] in stamped && r.next(stamped[i]) == Some(n);
    }
  }

  /** The frontier of a level is what is first led to there. */
  lemma FrontierOfLevel(r: Relations, hits: seq<Hit>, visited: set<int>, level: nat)
    requires VisitedBefore(r, visited, level) && LeadingHits(r, hits, level)
    ensures var stamped := Stamp(hits, level);
      NodesAt(r, Frontier(r, stamped, visited), level) && VisitedBefore(r, Seen(r, stamped, visited), level + 1)
  {
    hide Stamp, LeadsTo, Distinct, LedTo, SomeLeads;
    var stamped := Stamp(hits, level);
    FrontierIs(r, stamped, visited);
    forall n ensures n in Frontier(r, stamped, visited) <==> FirstLedTo(r, n, level) {
      StampedLead(r, hits, level, n);
    }
    SeenBefore(r, visited, Frontier(r, stamped, visited), Seen(r, stamped, visited), level);
  }

  lemma SeenBefore(r: Relations, visited: set<int>, frontier: seq<int>, seen: set<int>, level: nat)
    requires level > 0 && VisitedBefore(r, visited, level) && NodesAt(r, frontier, level)
    requires forall n :: n in seen <==> n in visited || n in frontier
    ensures VisitedBefore(r, seen, level + 1)
  {
    hide FirstLedTo, LedToBefore, Distinct;
    forall n ensures n in seen <==> n in r.start || LedToBefore(r, n, level + 1) {
      LedToNext(r, n, level);
      assert n in frontier <==> FirstLedTo(r, n, level);
    }
  }

  lemma NextLeads(r: Relations, nodes: seq<int>, level: nat)
    requires level > 0 && NodesAt(r, nodes, level)
    ensures LeadingHits(r, Gather(r, nodes), level + 1)
  {
    hide FirstLedTo, Gather, LeadsTo, Distinct;
    GatherIs(r, nodes, level);
  }

  lemma {:induction false} WalkLevels(r: Relations, hits: seq<Hit>, visited: set<int>, level: nat, depth: nat)
    returns (levels: seq<seq<Hit>>, nodes: seq<seq<int>>)
    requires level <= depth && VisitedBefore(r, visited, level) && LeadingHits(r, hits, level)
    ensures |levels| == depth - level + 1 && levels[0] == Stamp(hits, level)
    ensures Levels(r, levels, nodes, level)
    ensures Walk(r, hits, visited, level, depth) == Joined(levels)
    decreases depth - level
  {
    hide NodesAt, VisitedBefore, Gather, Frontier, Seen, Stamp, LedTo, SomeLeads, LedInOrder;
    var stamped := Stamp(hits, level);
    var frontier := Frontier(r, stamped, visited);
    FrontierOfLevel(r, hits, visited, level);
    FrontierInOrder(r, stamped, visited);
    if level == depth {
      levels, nodes := [stamped], [[]];
      assert levels[1..] == [];
    } else if frontier == [] {
      levels := [stamped] + seq(depth - level, _ => []);
      nodes := [[]] + seq(depth - level, _ => []);
      NothingJoined(depth - level);
      assert levels[1..] == seq(depth - level, _ => []);
      forall k: nat | 0 < k < |nodes| ensures NodesAt(r, nodes[k], level + k - 1) {
        NoneDeeper(r, level, level + k - 1);
      }
      NoOrder(r, levels, nodes);
    } else {
      var l, n := WalkLevels(r, Gather(r, frontier), Seen(r, stamped, visited), level + 1, depth)
        by { NextLeads(r, frontier, level); }
      levels, nodes := [stamped] + l, [[]] + ([frontier] + n[1..]);
      GatherIs(r, frontier, level + 1);
      assert levels[1..] == l;
      FirstLevels(r, stamped, frontier, l, n, level);
    }
  }

  lemma {:induction false} NothingJoined(n: nat)
    ensures Joined(seq(n, _ => [])) == []
  {
    if n > 0 {
      NothingJoined(n - 1);
      assert seq<seq<Hit>>(n, _ => [])[1..] == seq<seq<Hit>>(n - 1, _ => []);
    }
  }

  lemma NoOrder(r: Relations, levels: seq<seq<Hit>>, nodes: seq<seq<int>>)
    requires |levels| == |nodes| && forall k :: 0 < k < |nodes| ==> nodes[k] == []
    ensures forall k :: 0 < k < |nodes| ==> LedInOrder(r, levels[k - 1], nodes[k])
  {
  }

  lemma FirstLevels(
    r: Relations, stamped: seq<Hit>, frontier: seq<int>, l: seq<seq<Hit>>, n: seq<seq<int>>, level: nat)
    requires l != [] && level > 0 && Levels(r, l, n, level + 1)
    requires NodesAt(r, frontier, level) && l[0] == HitsOf(r, frontier, level + 1)
    requires LedInOrder(r, stamped, frontier)
    ensures Levels(r, [stamped] + l, [[]] + ([frontier] + n[1..]), level)
  {
    hide NodesAt, HitsOf, LedInOrder;
    var levels, nodes := [stamped] + l, [[]] + ([frontier] + n[1..]);
    forall k | 1 < k < |nodes| ensures nodes[k] == n[k - 1] && levels[k] == l[k - 1] {}
    assert nodes[1] == frontier && levels[1] == l[0];
  }

  lemma {:induction false} FilterKeeps(r: Relations, n: nat) returns (at: seq<nat>)
    requires n <= |r.rows|
    ensures var kept := Filter(r.keep, r.rows[..n]);
      && |at| == |kept|
      && (forall i, j :: 0 <= i < j < |at| ==> at[i] < at[j])
      && (forall i :: 0 <= i < |at| ==> at[i] < n && kept[i] == r.rows[at[i]])
      && (forall i: nat :: i < n ==> (r.keep(r.rows[i]) <==> i in at))
  {
    if n == 0 {
      at := [];
    } else {
      at := FilterKeeps(r, n - 1);
      assert r.rows[..n][..n - 1] == r.rows[..n - 1];
      if r.keep(r.rows[n - 1]) { at := at + [n - 1]; }
    }
  }

  /** The unbounded walk, told from the relations alone: first the rows to keep, in order; then, distance by distance up
      to the depth, the relations of every node first led to at that distance, of each node once. */
  lemma WalkLists(r: Relations, depth: nat)
    returns (levels: seq<seq<Hit>>, nodes: seq<seq<int>>, at: seq<nat>)
    ensures |levels| == if depth < 1 then 1 else if depth > 32 then 32 else depth
    ensures FullWalk(r, depth) == Joined(levels)
    ensures KeptRows(r, levels[0], at) && Levels(r, levels, nodes, 1)
  {
    hide FirstLedTo, Walk, Levels;
    var kept := Filter(r.keep, r.rows);
    at := FilterKeeps(r, |r.rows|);
    assert r.rows[..|r.rows|] == r.rows;
    NothingBefore(r);
    KeptLead(r, kept, at);
    levels, nodes := WalkLevels(r, kept, set n | n in r.start, 1, ClampDepth(depth));
  }

  lemma NothingBefore(r: Relations)
    ensures VisitedBefore(r, set n | n in r.start, 1)
  {
  }

  lemma KeptLead(r: Relations, kept: seq<Hit>, at: seq<nat>)
    requires |at| == |kept| && forall i :: 0 <= i < |at| ==> at[i] < |r.rows| && kept[i] == r.rows[at[i]]
    requires forall i: nat :: i < |r.rows| ==> (r.keep(r.rows[i]) <==> i in at)
    ensures LeadingHits(r, kept, 1)
  {
    hide LeadsTo, FirstLedTo;
    forall h ensures h in kept <==> h in r.rows && r.keep(h) {
      if h in r.rows && r.keep(h) {
        var i: nat :| i < |r.rows| && r.rows[i] == h;
        var j :| 0 <= j < |at| && at[j] == i;
        assert kept[j] == h;
      }
    }
  }

  lemma {:induction false} HitsOfDepth(r: Relations, nodes: seq<int>, depth: nat)
    ensures forall h :: h in HitsOf(r, nodes, depth) ==> h.depth == depth
  {
    if nodes != [] { HitsOfDepth(r, nodes[..|nodes| - 1], depth); }
  }

  /** The hits of `level` are at depth `depth`. */
  ghost predicate AtDepth(level: seq<Hit>, depth: nat) {
    forall h :: h in level ==> h.depth == depth
  }

  lemma {:induction false} JoinedDepths(levels: seq<seq<Hit>>, from: nat, i: nat, j: nat)
    requires forall k :: 0 <= k < |levels| ==> AtDepth(levels[k], from + k)
    requires i <= j < |Joined(levels)|
    ensures from <= Joined(levels)[i].depth <= Joined(levels)[j].depth < from + |levels|
    decreases |levels|
  {
    var n, rest := |levels[0]|, levels[1..];
    forall k | 0 <= k < |rest| ensures AtDepth(rest[k], from + 1 + k) {
      assert rest[k] == levels[k + 1];
    }
    assert AtDepth(levels[0], from + 0);
    if j >= n {
      JoinedDepths(rest, from + 1, if i < n then j - n else i - n, j - n);
    }
    if i < n { assert Joined(levels)[i] in levels[0]; }
    if j < n { assert Joined(levels)[j] in levels[0]; }
  }

  /** Depths never fall along the walk, and stay within its depth. */
  lemma WalkDepths(r: Relations, depth: nat, i: nat, j: nat)
    requires i <= j < |FullWalk(r, depth)|
    ensures 1 <= FullWalk(r, depth)[i].depth <= FullWalk(r, depth)[j].depth
    ensures FullWalk(r, depth)[j].depth <= if depth < 1 then 1 else if depth > 32 then 32 else depth
  {
    hide FullWalk;
    var levels, nodes, at := WalkLists(r, depth);
    forall k | 0 <= k < |levels| ensures AtDepth(levels[k], 1 + k) {
      if k > 0 { HitsOfDepth(r, nodes[k], 1 + k); }
    }
    JoinedDepths(levels, 1, i, j);
  }
}
