/** The state of the iterative search of `cycles.rs`, its three kinds of step, and what
    every step keeps. Nodes are the dense ids 0 .. |g|; `g[v]` lists the neighbours of `v` in
    the order they are scanned, repetitions included. */
module TarjanState {
  import opened Digraph
  import opened Limits

  type Graph = seq<seq<nat>>

  const UNVISITED: int := -1

  datatype Frame = Frame(node: nat, pos: nat)

  /** `work[v]` counts the loop iterations that had `v` on top of the call stack: one per
      scanned neighbour and one to finish. `comps` are the components popped so far. */
  datatype State = State(
    index: seq<int>, low: seq<nat>, onStack: seq<bool>, stack: seq<nat>,
    call: seq<Frame>, counter: nat, work: seq<nat>, comps: seq<seq<nat>>)

  ghost predicate IsGraph(g: Graph) {
    forall v, j :: 0 <= v < |g| && 0 <= j < |g[v]| ==> g[v][j] < |g|
  }

  ghost function Edges(g: Graph): set<(nat, nat)> {
    set v: nat, j: nat | v < |g| && j < |g[v]| :: (v, g[v][j])
  }

  function Reverse<T>(s: seq<T>): (r: seq<T>)
    ensures |r| == |s|
    ensures forall i :: 0 <= i < |s| ==> r[i] == s[|s| - 1 - i]
  {
    seq(|s|, i requires 0 <= i < |s| => s[|s| - 1 - i])
  }

  // ------------------------------------------------------------ steps

  function Top(s: State): nat
    requires |s.call| > 0
  {
    s.call[|s.call| - 1].node
  }

  ghost predicate CanOpen(g: Graph, s: State) {
    Sized(g, s) && |s.call| > 0 && !Visited(s, Top(s))
  }

  /** First visit of the node on top. */
  ghost function Open(g: Graph, s: State): State
    requires CanOpen(g, s)
  {
    var v := Top(s);
    s.(index := s.index[v := s.counter], low := s.low[v := s.counter],
       onStack := s.onStack[v := true], stack := s.stack + [v], counter := s.counter + 1)
  }

  ghost predicate CanFollow(g: Graph, s: State) {
    && Sized(g, s) && Numbered(g, s) && |s.call| > 0 && Visited(s, Top(s))
    && s.call[|s.call| - 1].pos < |g[Top(s)]|
  }

  /** Scan the next neighbour of the node on top. */
  ghost function Follow(g: Graph, s: State): State
    requires CanFollow(g, s)
  {
    var k := |s.call| - 1;
    var v, pos := s.call[k].node, s.call[k].pos;
    var w := g[v][pos];
    var t := s.(call := s.call[k := Frame(v, pos + 1)], work := s.work[v := pos + 1]);
    if s.index[w] == UNVISITED then t.(call := t.call + [Frame(w, 0)])
    else if s.onStack[w] then t.(low := t.low[v := Min(t.low[v], t.index[w])])
    else t
  }

  ghost predicate CanReturn(g: Graph, s: State) {
    Sized(g, s) && |s.call| > 0 && Visited(s, Top(s)) && s.call[|s.call| - 1].pos == |g[Top(s)]|
  }

  /** Drop the finished top frame and hand its low link to the parent frame. */
  ghost function Return(g: Graph, s: State): State
    requires CanReturn(g, s)
  {
    var k, v := |s.call| - 1, Top(s);
    var t := s.(call := s.call[..k], work := s.work[v := |g[v]| + 1]);
    if k == 0 then t
    else
      var p := s.call[k - 1].node;
      t.(low := t.low[p := Min(t.low[p], t.low[v])])
  }

  /** Pop the stack from position `m` up as one component. */
  ghost function Emit(s: State, m: nat): State
    requires m <= |s.stack|
  {
    s.(stack := s.stack[..m],
       onStack := seq(|s.onStack|, x requires 0 <= x < |s.onStack| => s.onStack[x] && x !in s.stack[m..]),
       comps := s.comps + [Reverse(s.stack[m..])])
  }

  // ------------------------------------------------------------ invariants

  ghost predicate Sized(g: Graph, s: State) {
    && IsGraph(g)
    && |g| == |s.index| == |s.low| == |s.onStack| == |s.work|
    && (forall i :: 0 <= i < |s.stack| ==> s.stack[i] < |g|)
    && (forall i :: 0 <= i < |s.call| ==> s.call[i].node < |g| && s.call[i].pos <= |g[s.call[i].node]|)
  }

  ghost predicate Visited(s: State, v: nat) {
    v < |s.index| && s.index[v] != UNVISITED
  }

  ghost predicate Popped(s: State, v: nat) {
    v < |s.onStack| && Visited(s, v) && !s.onStack[v]
  }

  /** Nodes are numbered in order of first visit. */
  ghost predicate Numbered(g: Graph, s: State)
    requires Sized(g, s)
  {
    forall v :: 0 <= v < |g| ==> UNVISITED <= s.index[v] < s.counter
  }

  /** The stack holds visited nodes in order of their numbers. */
  ghost predicate Stacked(g: Graph, s: State)
    requires Sized(g, s)
  {
    && (forall v :: 0 <= v < |g| ==> (s.onStack[v] <==> v in s.stack))
    && (forall v :: 0 <= v < |g| && s.onStack[v] ==> s.index[v] != UNVISITED && s.low[v] <= s.index[v])
    && (forall i, j :: 0 <= i < j < |s.stack| ==> s.index[s.stack[i]] < s.index[s.stack[j]])
  }

  /** The call stack is a path of stacked nodes in that same order; only its top may be unvisited. */
  ghost predicate Frames(g: Graph, s: State)
    requires Sized(g, s)
  {
    && (forall i :: 0 <= i < |s.call| ==> (s.onStack[s.call[i].node] || (i == |s.call| - 1 && !Visited(s, Top(s)))))
    && (forall i, j :: 0 <= i < j < |s.call| && Visited(s, s.call[j].node) ==>
          s.index[s.call[i].node] < s.index[s.call[j].node])
    && (forall i :: Linked(g, s, i))
  }

  /** The frame above `i` is the neighbour frame `i` scanned last. */
  ghost predicate Linked(g: Graph, s: State, i: int)
    requires Sized(g, s)
  {
    0 <= i < |s.call| - 1 ==>
      s.call[i].pos > 0 && g[s.call[i].node][s.call[i].pos - 1] == s.call[i + 1].node
  }

  ghost predicate OnCall(s: State, v: nat) {
    exists i :: 0 <= i < |s.call| && s.call[i].node == v
  }

  /** The unfinished visited nodes are those on the call stack, at the position their frame says. */
  ghost predicate Counted(g: Graph, s: State)
    requires Sized(g, s)
  {
    && (forall i :: 0 <= i < |s.call| ==> s.work[s.call[i].node] == s.call[i].pos)
    && (forall v :: 0 <= v < |g| && !Visited(s, v) ==> s.work[v] == 0)
    && (forall v :: 0 <= v < |g| && Visited(s, v) && !OnCall(s, v) ==> s.work[v] == |g[v]| + 1)
  }

  /** A neighbour already scanned was visited, unless it is the top about to be opened. */
  ghost predicate Scanned(g: Graph, s: State)
    requires Sized(g, s)
  {
    forall u, j :: 0 <= u < |g| && 0 <= j < |g[u]| && j < s.work[u] ==>
      Visited(s, g[u][j]) || (|s.call| > 0 && g[u][j] == Top(s))
  }

  /** Nothing leads out of the popped components. */
  ghost predicate PoppedClosed(g: Graph, s: State)
    requires Sized(g, s)
  {
    forall u, j :: 0 <= u < |g| && Popped(s, u) && 0 <= j < |g[u]| ==> Popped(s, g[u][j])
  }

  /** An open frame reaches everything stacked after it. */
  ghost predicate FramesReachDown(g: Graph, s: State)
    requires Sized(g, s)
  {
    forall i, x: nat :: (
      && 0 <= i < |s.call| && x < |g| && s.onStack[x] && Visited(s, s.call[i].node)
      && s.index[s.call[i].node] <= s.index[x]) ==>
      Reach(Edges(g), s.call[i].node, x)
  }

  ghost predicate ReachesFrame(g: Graph, s: State, x: nat, i: int)
    requires Sized(g, s)
  {
    && 0 <= i < |s.call| && x < |g| && Visited(s, s.call[i].node)
    && s.index[s.call[i].node] <= s.index[x]
    && Reach(Edges(g), x, s.call[i].node)
  }

  /** Everything stacked reaches an open frame at or below it. */
  ghost predicate StackReachesUp(g: Graph, s: State)
    requires Sized(g, s)
  {
    forall x: nat :: x < |g| && s.onStack[x] ==> exists i :: ReachesFrame(g, s, x, i)
  }

  ghost predicate LowWitness(g: Graph, s: State, v: nat, x: nat)
    requires Sized(g, s)
  {
    && v < |g| && x < |g| && s.onStack[x]
    && s.index[x] == s.low[v]
    && Reach(Edges(g), v, x)
  }

  /** The low link of an open frame is the number of a stacked node it reaches. */
  ghost predicate LowReached(g: Graph, s: State)
    requires Sized(g, s)
  {
    forall i :: FrameLow(g, s, i)
  }

  ghost predicate FrameLow(g: Graph, s: State, i: int)
    requires Sized(g, s)
  {
    0 <= i < |s.call| && Visited(s, s.call[i].node) ==> exists x :: LowWitness(g, s, s.call[i].node, x)
  }

  /** `x` was visited at or after frame `i` and before the next open frame. */
  ghost predicate Owns(s: State, i: int, x: nat) {
    && 0 <= i < |s.call| && x < |s.index|
    && Visited(s, s.call[i].node)
    && s.index[s.call[i].node] <= s.index[x]
    && (i + 1 < |s.call| && Visited(s, s.call[i + 1].node) ==> s.index[x] < s.index[s.call[i + 1].node])
  }

  /** The low link of a frame bounds every scanned edge into the stack of the nodes it owns. */
  ghost predicate LowBounds(g: Graph, s: State)
    requires Sized(g, s)
  {
    forall i, x: nat, j :: (
      && x < |g| && s.onStack[x] && Owns(s, i, x) && 0 <= j < |g[x]| && j < s.work[x]
      && s.onStack[g[x][j]]) ==>
      s.low[s.call[i].node] <= s.index[g[x][j]]
  }

  /** `c` lists one strongly connected component without repetition. */
  ghost predicate IsComponent(E: set<(nat, nat)>, c: seq<nat>) {
    && c != []
    && (forall i, j :: 0 <= i < j < |c| ==> c[i] != c[j])
    && (forall x, y :: x in c ==> (y in c <==> Mutual(E, x, y)))
  }

  ghost predicate InComps(s: State, v: nat) {
    exists a :: 0 <= a < |s.comps| && v in s.comps[a]
  }

  /** The popped components are strongly connected components, disjoint, and cover what was popped. */
  ghost predicate CompsRight(g: Graph, s: State)
    requires Sized(g, s)
  {
    && (forall c :: c in s.comps ==> IsComponent(Edges(g), c))
    && (forall a, b, x :: 0 <= a < b < |s.comps| && x in s.comps[a] ==> x !in s.comps[b])
    && (forall a, x :: 0 <= a < |s.comps| && x in s.comps[a] ==> Popped(s, x))
    && (forall v :: 0 <= v < |g| && Popped(s, v) ==> InComps(s, v))
  }

  ghost predicate Inv(g: Graph, s: State) {
    && Sized(g, s) && Numbered(g, s) && Stacked(g, s) && Frames(g, s) && Counted(g, s) && Scanned(g, s)
    && PoppedClosed(g, s) && FramesReachDown(g, s) && StackReachesUp(g, s) && LowReached(g, s)
    && LowBounds(g, s) && CompsRight(g, s)
  }

  // ------------------------------------------------------------ opening a node

  lemma OpenSized(g: Graph, s: State)
    requires CanOpen(g, s)
    ensures Sized(g, Open(g, s))
  {
  }

  lemma OpenStacked(g: Graph, s: State)
    requires CanOpen(g, s) && Sized(g, Open(g, s)) && Numbered(g, s) && Stacked(g, s)
    ensures Numbered(g, Open(g, s)) && Stacked(g, Open(g, s))
  {
    var v, t := Top(s), Open(g, s);
    assert v !in s.stack;
    assert forall i :: 0 <= i < |s.stack| ==> s.onStack[s.stack[i]];
  }

  lemma OpenFrames(g: Graph, s: State)
    requires CanOpen(g, s) && Sized(g, Open(g, s)) && Numbered(g, s) && Stacked(g, s) && Frames(g, s)
    ensures Frames(g, Open(g, s))
  {
    var v, t, k := Top(s), Open(g, s), |s.call| - 1;
    assert forall i :: 0 <= i < k ==> s.call[i].node != v;
    forall i ensures Linked(g, t, i) { assert Linked(g, s, i); }
  }

  lemma OpenCounted(g: Graph, s: State)
    requires CanOpen(g, s) && Sized(g, Open(g, s)) && Counted(g, s)
    ensures Counted(g, Open(g, s))
  {
    var v, t := Top(s), Open(g, s);
    assert OnCall(t, v) by { assert t.call[|s.call| - 1].node == v; }
    assert forall u: nat :: OnCall(s, u) == OnCall(t, u);
  }

  /** While nothing is popped the components stay right. */
  lemma SameComps(g: Graph, s: State, t: State)
    requires Sized(g, s) && Sized(g, t) && CompsRight(g, s) && t.comps == s.comps
    requires forall u: nat :: u < |g| ==> (Popped(t, u) <==> Popped(s, u))
    ensures CompsRight(g, t)
  {
    hide IsComponent, Edges, IsGraph;
    forall u: nat | u < |g| && Popped(t, u) ensures InComps(t, u) {
      assert InComps(s, u);
      var a :| 0 <= a < |s.comps| && u in s.comps[a];
      assert u in t.comps[a];
    }
    forall a, x | 0 <= a < |t.comps| && x in t.comps[a] ensures Popped(t, x) {
      assert x in s.comps[a] && Popped(s, x);
    }
  }

  lemma OpenPopped(g: Graph, s: State)
    requires CanOpen(g, s) && Sized(g, Open(g, s)) && Scanned(g, s) && PoppedClosed(g, s) && CompsRight(g, s)
    ensures Scanned(g, Open(g, s)) && PoppedClosed(g, Open(g, s)) && CompsRight(g, Open(g, s))
  {
    hide CompsRight;
    var v, t := Top(s), Open(g, s);
    assert forall u: nat :: u < |g| ==> (Popped(t, u) <==> Popped(s, u));
    SameComps(g, s, t);
  }

  lemma OpenReachDown(g: Graph, s: State)
    requires CanOpen(g, s) && Sized(g, Open(g, s)) && Numbered(g, s) && Stacked(g, s) && Frames(g, s)
    requires FramesReachDown(g, s)
    ensures FramesReachDown(g, Open(g, s))
  {
    var v, t, k := Top(s), Open(g, s), |s.call| - 1;
    forall i, x: nat | 0 <= i < |t.call| && x < |g| && t.onStack[x] && Visited(t, t.call[i].node)
      && t.index[t.call[i].node] <= t.index[x]
      ensures Reach(Edges(g), t.call[i].node, x)
    {
      if i == k {
        assert x == v;
        ReachRefl(Edges(g), v);
      } else if x == v {
        var p := s.call[k - 1];
        assert Linked(g, s, k - 1);
        assert (p.node, g[p.node][p.pos - 1]) in Edges(g);
        ReachEdge(Edges(g), p.node, v);
        assert i < k - 1 ==> s.index[s.call[i].node] < s.index[p.node];
        assert Reach(Edges(g), s.call[i].node, p.node);
        ReachTrans(Edges(g), s.call[i].node, p.node, v);
      } else {
        assert s.call[i].node != v;
      }
    }
  }

  lemma OpenReachUp(g: Graph, s: State)
    requires CanOpen(g, s) && Sized(g, Open(g, s)) && Numbered(g, s) && StackReachesUp(g, s)
    ensures StackReachesUp(g, Open(g, s))
  {
    var v, t, k := Top(s), Open(g, s), |s.call| - 1;
    forall x: nat | x < |g| && t.onStack[x] ensures exists i :: ReachesFrame(g, t, x, i) {
      if x == v {
        ReachRefl(Edges(g), v);
        assert ReachesFrame(g, t, x, k);
      } else {
        var i :| ReachesFrame(g, s, x, i);
        assert ReachesFrame(g, t, x, i);
      }
    }
  }

  lemma OpenLowReached(g: Graph, s: State)
    requires CanOpen(g, s) && Sized(g, Open(g, s)) && Stacked(g, s) && LowReached(g, s)
    ensures LowReached(g, Open(g, s))
  {
    var v, t := Top(s), Open(g, s);
    forall i | 0 <= i < |t.call| && Visited(t, t.call[i].node) ensures FrameLow(g, t, i) {
      assert FrameLow(g, s, i);
      if t.call[i].node == v {
        ReachRefl(Edges(g), v);
        assert LowWitness(g, t, v, v);
      } else {
        var x :| LowWitness(g, s, s.call[i].node, x);
        assert LowWitness(g, t, s.call[i].node, x);
      }
    }
  }

  lemma OpenLow(g: Graph, s: State)
    requires CanOpen(g, s) && Sized(g, Open(g, s)) && Numbered(g, s) && Stacked(g, s) && Frames(g, s) && Counted(g, s)
    requires LowBounds(g, s)
    ensures LowBounds(g, Open(g, s))
  {
    hide Linked, OnCall, Stacked, Frames, Counted, Numbered;
    var t := Open(g, s);
    forall i, x: nat, j | x < |g| && t.onStack[x] && Owns(t, i, x) && 0 <= j < |g[x]| && j < t.work[x]
      && t.onStack[g[x][j]]
      ensures t.low[t.call[i].node] <= t.index[g[x][j]]
    {
      OpenLowAt(g, s, i, x, j);
    }
  }

  lemma OpenLowAt(g: Graph, s: State, i: int, x: nat, j: int)
    requires CanOpen(g, s) && Sized(g, Open(g, s)) && Numbered(g, s) && Stacked(g, s) && Frames(g, s) && Counted(g, s)
    requires LowBounds(g, s)
    requires x < |g| && Open(g, s).onStack[x] && Owns(Open(g, s), i, x) && 0 <= j < |g[x]| && j < Open(g, s).work[x]
    requires g[x][j] < |g| && Open(g, s).onStack[g[x][j]]
    ensures Open(g, s).low[Open(g, s).call[i].node] <= Open(g, s).index[g[x][j]]
  {
    hide IsGraph, Linked, OnCall;
    var v, t, k := Top(s), Open(g, s), |s.call| - 1;
    assert x != v;
    assert i < k;
    assert s.call[i].node != v;
    assert Owns(s, i, x);
    assert s.onStack[s.call[i].node];
  }

  lemma OpenKeeps(g: Graph, s: State)
    requires CanOpen(g, s) && Inv(g, s)
    ensures Inv(g, Open(g, s)) && Visited(Open(g, s), Top(s))
  {
    OpenSized(g, s);
    OpenStacked(g, s);
    OpenFrames(g, s);
    OpenCounted(g, s);
    OpenPopped(g, s);
    OpenReachDown(g, s);
    OpenReachUp(g, s);
    OpenLowReached(g, s);
    OpenLow(g, s);
  }

  // ------------------------------------------------------------ scanning a neighbour

  /** The neighbour scanned. */
  ghost function Next(g: Graph, s: State): nat
    requires CanFollow(g, s)
  {
    g[Top(s)][s.call[|s.call| - 1].pos]
  }

  lemma FollowSized(g: Graph, s: State)
    requires CanFollow(g, s)
    ensures Sized(g, Follow(g, s)) && Numbered(g, Follow(g, s))
  {
  }

  lemma FollowStacked(g: Graph, s: State)
    requires CanFollow(g, s) && Sized(g, Follow(g, s)) && Stacked(g, s)
    ensures Stacked(g, Follow(g, s))
  {
  }

  lemma FollowLinked(g: Graph, s: State)
    requires CanFollow(g, s) && Sized(g, Follow(g, s)) && Frames(g, s)
    ensures forall i :: Linked(g, Follow(g, s), i)
  {
    hide IsGraph;
    var t := Follow(g, s);
    assert forall i :: 0 <= i < |s.call| ==> t.call[i].node == s.call[i].node;
    forall i ensures Linked(g, t, i) { assert Linked(g, s, i); }
  }

  lemma FollowFrames(g: Graph, s: State)
    requires CanFollow(g, s) && Sized(g, Follow(g, s)) && Stacked(g, s) && Frames(g, s)
    ensures Frames(g, Follow(g, s))
  {
    FollowLinked(g, s);
    hide IsGraph, Linked;
    var t, k := Follow(g, s), |s.call| - 1;
    assert forall i :: 0 <= i < |s.call| ==> t.call[i].node == s.call[i].node;
  }

  lemma FollowOnCall(g: Graph, s: State)
    requires CanFollow(g, s)
    ensures forall u: nat :: OnCall(s, u) || u == Top(s) ==> OnCall(Follow(g, s), u)
  {
    hide IsGraph;
    var t := Follow(g, s);
    assert t.call[|s.call| - 1].node == Top(s);
    forall u: nat | OnCall(s, u) ensures OnCall(t, u) {
      var i :| 0 <= i < |s.call| && s.call[i].node == u;
      assert t.call[i].node == u;
    }
  }

  lemma FollowCounted(g: Graph, s: State)
    requires CanFollow(g, s) && Sized(g, Follow(g, s)) && Frames(g, s) && Counted(g, s)
    ensures Counted(g, Follow(g, s))
  {
    FollowOnCall(g, s);
    hide IsGraph, Linked, OnCall;
    var v, w, t, k := Top(s), Next(g, s), Follow(g, s), |s.call| - 1;
    forall i | 0 <= i < |t.call| ensures t.work[t.call[i].node] == t.call[i].pos {
      if i < k { assert t.call[i] == s.call[i] && (Visited(s, v) ==> s.index[s.call[i].node] < s.index[v]); }
    }
  }

  lemma FollowPopped(g: Graph, s: State)
    requires CanFollow(g, s) && Sized(g, Follow(g, s)) && Counted(g, s) && Scanned(g, s) && PoppedClosed(g, s)
    requires CompsRight(g, s)
    ensures Scanned(g, Follow(g, s)) && PoppedClosed(g, Follow(g, s)) && CompsRight(g, Follow(g, s))
  {
    hide CompsRight;
    var t := Follow(g, s);
    assert forall u: nat :: u < |g| ==> (Popped(t, u) <==> Popped(s, u));
    SameComps(g, s, t);
  }

  lemma FollowReachDown(g: Graph, s: State)
    requires CanFollow(g, s) && Sized(g, Follow(g, s)) && FramesReachDown(g, s)
    ensures FramesReachDown(g, Follow(g, s))
  {
    var t := Follow(g, s);
    forall i, x: nat | 0 <= i < |t.call| && x < |g| && t.onStack[x] && Visited(t, t.call[i].node)
      && t.index[t.call[i].node] <= t.index[x]
      ensures Reach(Edges(g), t.call[i].node, x)
    {
      assert i < |s.call| && t.call[i].node == s.call[i].node;
    }
  }

  lemma FollowReachUp(g: Graph, s: State)
    requires CanFollow(g, s) && Sized(g, Follow(g, s)) && StackReachesUp(g, s)
    ensures StackReachesUp(g, Follow(g, s))
  {
    var t := Follow(g, s);
    forall x: nat | x < |g| && t.onStack[x] ensures exists i :: ReachesFrame(g, t, x, i) {
      var i :| ReachesFrame(g, s, x, i);
      assert t.call[i].node == s.call[i].node;
      assert ReachesFrame(g, t, x, i);
    }
  }

  lemma FollowLowReached(g: Graph, s: State)
    requires CanFollow(g, s) && Sized(g, Follow(g, s)) && LowReached(g, s)
    ensures LowReached(g, Follow(g, s))
  {
    var v, w, t := Top(s), Next(g, s), Follow(g, s);
    forall i | 0 <= i < |t.call| && Visited(t, t.call[i].node) ensures FrameLow(g, t, i) {
      assert FrameLow(g, s, i);
      assert i < |s.call| && t.call[i].node == s.call[i].node;
      var u := s.call[i].node;
      if t.low[u] == s.low[u] {
        var x :| LowWitness(g, s, u, x);
        assert LowWitness(g, t, u, x);
      } else {
        assert (v, w) in Edges(g);
        ReachEdge(Edges(g), v, w);
        assert LowWitness(g, t, v, w);
      }
    }
  }

  lemma FollowLow(g: Graph, s: State)
    requires CanFollow(g, s) && Sized(g, Follow(g, s)) && Stacked(g, s) && Frames(g, s) && Counted(g, s)
    requires LowBounds(g, s)
    ensures LowBounds(g, Follow(g, s))
  {
    var t := Follow(g, s);
    forall i, x: nat, j | x < |g| && t.onStack[x] && Owns(t, i, x) && 0 <= j < |g[x]| && j < t.work[x]
      && t.onStack[g[x][j]]
      ensures t.low[t.call[i].node] <= t.index[g[x][j]]
    {
      FollowLowAt(g, s, i, x, j);
    }
  }

  lemma FollowLowAt(g: Graph, s: State, i: int, x: nat, j: int)
    requires CanFollow(g, s) && Sized(g, Follow(g, s)) && Stacked(g, s) && Frames(g, s) && Counted(g, s)
    requires LowBounds(g, s)
    requires x < |g| && s.onStack[x] && Owns(Follow(g, s), i, x) && 0 <= j < |g[x]| && j < Follow(g, s).work[x]
    requires s.onStack[g[x][j]]
    ensures var t := Follow(g, s); t.low[t.call[i].node] <= t.index[g[x][j]]
  {
    hide Frames, OnCall, Numbered;
    var v, t, k := Top(s), Follow(g, s), |s.call| - 1;
    assert i <= k && t.call[i].node == s.call[i].node;
    assert Owns(s, i, x);
    assert t.low[s.call[i].node] <= s.low[s.call[i].node];
    if j < s.work[x] {
      assert s.low[s.call[i].node] <= s.index[g[x][j]];
    } else {
      assert x == v;
      TopOwnsTop(g, s, i);
    }
  }

  /** Only the top frame owns the node on top. */
  lemma TopOwnsTop(g: Graph, s: State, i: int)
    requires Sized(g, s) && Stacked(g, s) && Frames(g, s) && |s.call| > 0 && Visited(s, Top(s))
    requires Owns(s, i, Top(s))
    ensures i == |s.call| - 1
  {
  }

  lemma FollowKeeps(g: Graph, s: State)
    requires CanFollow(g, s) && Inv(g, s)
    ensures Inv(g, Follow(g, s))
  {
    hide Stacked, Frames, Counted, Scanned, PoppedClosed, FramesReachDown, StackReachesUp, LowReached, LowBounds,
      CompsRight;
    hide IsGraph, Follow;
    FollowSized(g, s);
    FollowStacked(g, s);
    FollowFrames(g, s);
    FollowCounted(g, s);
    FollowPopped(g, s);
    FollowReachDown(g, s);
    FollowReachUp(g, s);
    FollowLowReached(g, s);
    FollowLow(g, s);
  }

  // ------------------------------------------------------------ finishing a node

  lemma ReturnSized(g: Graph, s: State)
    requires CanReturn(g, s)
    ensures Sized(g, Return(g, s))
  {
  }

  lemma ReturnStacked(g: Graph, s: State)
    requires CanReturn(g, s) && Sized(g, Return(g, s)) && Numbered(g, s) && Stacked(g, s)
    ensures Numbered(g, Return(g, s)) && Stacked(g, Return(g, s))
  {
  }

  lemma ReturnFrames(g: Graph, s: State)
    requires CanReturn(g, s) && Sized(g, Return(g, s)) && Frames(g, s)
    ensures Frames(g, Return(g, s))
  {
    var t := Return(g, s);
    forall i ensures Linked(g, t, i) { assert Linked(g, s, i); }
  }

  lemma ReturnCounted(g: Graph, s: State)
    requires CanReturn(g, s) && Sized(g, Return(g, s)) && Frames(g, s) && Counted(g, s)
    ensures Counted(g, Return(g, s))
  {
    var v, t, k := Top(s), Return(g, s), |s.call| - 1;
    forall u: nat | OnCall(s, u) && u != v ensures OnCall(t, u) {
      var i :| 0 <= i < |s.call| && s.call[i].node == u;
      assert t.call[i].node == u;
    }
  }

  lemma ReturnPopped(g: Graph, s: State)
    requires CanReturn(g, s) && Sized(g, Return(g, s)) && Counted(g, s) && Scanned(g, s) && PoppedClosed(g, s)
    requires CompsRight(g, s)
    ensures Scanned(g, Return(g, s)) && PoppedClosed(g, Return(g, s)) && CompsRight(g, Return(g, s))
  {
    hide CompsRight;
    var t := Return(g, s);
    assert forall u: nat :: u < |g| ==> (Popped(t, u) <==> Popped(s, u));
    SameComps(g, s, t);
  }

  lemma ReturnReachDown(g: Graph, s: State)
    requires CanReturn(g, s) && Sized(g, Return(g, s)) && FramesReachDown(g, s)
    ensures FramesReachDown(g, Return(g, s))
  {
  }

  /** With a low link below its number, the finished node reaches an earlier open frame. */
  lemma MergeFindsFrame(g: Graph, s: State) returns (i: int)
    requires CanReturn(g, s) && StackReachesUp(g, s) && LowReached(g, s)
    requires s.low[Top(s)] < s.index[Top(s)]
    ensures i < |s.call| - 1 && ReachesFrame(g, s, Top(s), i)
  {
    hide Reach, Edges, IsGraph, Steps, LowReached;
    var x := TopWitness(g, s);
    i :| ReachesFrame(g, s, x, i);
    ReachTrans(Edges(g), Top(s), x, s.call[i].node);
  }

  lemma TopWitness(g: Graph, s: State) returns (x: nat)
    requires CanReturn(g, s) && LowReached(g, s)
    ensures LowWitness(g, s, Top(s), x)
  {
    hide Reach, Edges, IsGraph, Steps;
    assert FrameLow(g, s, |s.call| - 1) && s.call[|s.call| - 1].node == Top(s);
    x :| LowWitness(g, s, Top(s), x);
  }

  lemma MergeReachUp(g: Graph, s: State)
    requires CanReturn(g, s) && Sized(g, Return(g, s))
    requires StackReachesUp(g, s) && LowReached(g, s)
    requires s.low[Top(s)] < s.index[Top(s)]
    ensures StackReachesUp(g, Return(g, s))
  {
    hide Reach, Edges, LowReached, IsGraph;
    var v, t, k := Top(s), Return(g, s), |s.call| - 1;
    var m := MergeFindsFrame(g, s);
    forall x: nat | x < |g| && t.onStack[x] ensures exists i :: ReachesFrame(g, t, x, i) {
      var i :| ReachesFrame(g, s, x, i);
      if i < k {
        assert ReachesFrame(g, t, x, i);
      } else {
        ReachTrans(Edges(g), x, v, s.call[m].node);
        assert ReachesFrame(g, t, x, m);
      }
    }
  }

  lemma MergeLowReached(g: Graph, s: State)
    requires CanReturn(g, s) && Sized(g, Return(g, s)) && Frames(g, s) && LowReached(g, s)
    ensures LowReached(g, Return(g, s))
  {
    hide Reach;
    var v, t, k := Top(s), Return(g, s), |s.call| - 1;
    forall i | 0 <= i < |t.call| && Visited(t, t.call[i].node) ensures FrameLow(g, t, i) {
      assert FrameLow(g, s, i);
      var u := s.call[i].node;
      if t.low[u] == s.low[u] {
        var x :| LowWitness(g, s, u, x);
        assert LowWitness(g, t, u, x);
      } else {
        assert i == k - 1 && Linked(g, s, i);
        assert (u, g[u][s.call[i].pos - 1]) in Edges(g);
        ReachEdge(Edges(g), u, v);
        assert FrameLow(g, s, k) && s.call[k].node == v;
        var x :| LowWitness(g, s, v, x);
        ReachTrans(Edges(g), u, v, x);
        assert LowWitness(g, t, u, x);
      }
    }
  }

  lemma MergeLow(g: Graph, s: State)
    requires CanReturn(g, s) && Sized(g, Return(g, s)) && Stacked(g, s) && Frames(g, s) && Counted(g, s)
    requires LowBounds(g, s)
    ensures LowBounds(g, Return(g, s))
  {
    var t := Return(g, s);
    forall i, x: nat, j | x < |g| && t.onStack[x] && Owns(t, i, x) && 0 <= j < |g[x]| && j < t.work[x]
      && t.onStack[g[x][j]]
      ensures t.low[t.call[i].node] <= t.index[g[x][j]]
    {
      MergeLowAt(g, s, i, x, j);
    }
  }

  lemma MergeLowAt(g: Graph, s: State, i: int, x: nat, j: int)
    requires CanReturn(g, s) && Sized(g, Return(g, s)) && Stacked(g, s) && Frames(g, s) && Counted(g, s)
    requires LowBounds(g, s)
    requires x < |g| && s.onStack[x] && Owns(Return(g, s), i, x) && 0 <= j < |g[x]| && j < Return(g, s).work[x]
    requires s.onStack[g[x][j]]
    ensures var t := Return(g, s); t.low[t.call[i].node] <= t.index[g[x][j]]
  {
    hide Frames, OnCall;
    var v, t, k := Top(s), Return(g, s), |s.call| - 1;
    assert s.work[v] == |g[v]|;
    assert t.low[s.call[i].node] <= s.low[s.call[i].node];
    if Owns(s, i, x) {
      assert s.low[s.call[i].node] <= s.index[g[x][j]];
    } else {
      assert i == k - 1 && Owns(s, k, x);
      assert s.low[s.call[k].node] <= s.index[g[x][j]];
    }
  }

  lemma MergeKeeps(g: Graph, s: State)
    requires CanReturn(g, s) && Inv(g, s) && s.low[Top(s)] < s.index[Top(s)]
    ensures Inv(g, Return(g, s))
  {
    hide Return, Stacked, Frames, Counted, Scanned, PoppedClosed, FramesReachDown, StackReachesUp, LowReached,
      LowBounds, CompsRight;
    ReturnSized(g, s);
    ReturnStacked(g, s);
    ReturnFrames(g, s);
    ReturnCounted(g, s);
    ReturnPopped(g, s);
    ReturnReachDown(g, s);
    MergeReachUp(g, s);
    MergeLowReached(g, s);
    MergeLow(g, s);
  }

  // ------------------------------------------------------------ popping a component

  ghost predicate CanPop(g: Graph, s: State, m: nat) {
    CanReturn(g, s) && m < |s.stack| && s.stack[m] == Top(s)
  }

  ghost function Pop(g: Graph, s: State, m: nat): State
    requires CanPop(g, s, m)
  {
    Emit(Return(g, s), m)
  }

  /** What popping leaves as it was. */
  lemma PopFields(g: Graph, s: State, m: nat)
    requires CanPop(g, s, m) && Stacked(g, s) && Frames(g, s) && s.low[Top(s)] == s.index[Top(s)]
    ensures var t := Pop(g, s, m);
      && t.index == s.index && t.counter == s.counter && t.low == s.low && t.work == s.work[Top(s) := |g[Top(s)]| + 1]
      && t.call == s.call[..|s.call| - 1] && t.stack == s.stack[..m]
      && t.comps == s.comps + [Reverse(s.stack[m..])] && |t.onStack| == |s.onStack|
  {
    var k := |s.call| - 1;
    if k > 0 {
      assert s.onStack[s.call[k - 1].node];
      assert s.index[s.call[k - 1].node] < s.index[s.call[k].node];
    }
  }

  /** The popped part of the stack is what was visited from the top node on. */
  lemma PopCut(g: Graph, s: State, m: nat, x: nat)
    requires CanPop(g, s, m) && Stacked(g, s) && x < |g|
    ensures s.onStack[x] ==> (x in s.stack[m..] <==> s.index[Top(s)] <= s.index[x])
    ensures x in s.stack[m..] ==> s.onStack[x]
    ensures Pop(g, s, m).onStack[x] <==> s.onStack[x] && s.index[x] < s.index[Top(s)]
  {
    hide IsGraph;
    if x in s.stack[m..] {
      var i :| 0 <= i < |s.stack| - m && s.stack[m..][i] == x;
      assert s.stack[m + i] == x;
    }
    if s.onStack[x] {
      var i :| 0 <= i < |s.stack| && s.stack[i] == x;
      if i >= m { assert s.stack[m..][i - m] == x; }
    }
  }

  /** `t` is `s` after its top frame was finished and everything visited since was popped. */
  ghost predicate PoppedTo(g: Graph, s: State, t: State) {
    && CanReturn(g, s) && Sized(g, t)
    && t.index == s.index && t.counter == s.counter && t.low == s.low && t.work == s.work[Top(s) := |g[Top(s)]| + 1]
    && t.call == s.call[..|s.call| - 1]
    && forall x :: 0 <= x < |g| ==> (t.onStack[x] <==> s.onStack[x] && s.index[x] < s.index[Top(s)])
  }

  lemma PopIsPoppedTo(g: Graph, s: State, m: nat)
    requires CanPop(g, s, m) && Stacked(g, s) && Frames(g, s) && s.low[Top(s)] == s.index[Top(s)]
    ensures PoppedTo(g, s, Pop(g, s, m))
  {
    PopFields(g, s, m);
    var t := Pop(g, s, m);
    forall x | 0 <= x < |g| ensures t.onStack[x] <==> s.onStack[x] && s.index[x] < s.index[Top(s)] {
      PopCut(g, s, m, x);
    }
  }

  lemma PopStacked(g: Graph, s: State, t: State, m: nat)
    requires PoppedTo(g, s, t) && CanPop(g, s, m) && t.stack == s.stack[..m] && Numbered(g, s) && Stacked(g, s)
    ensures Numbered(g, t) && Stacked(g, t)
  {
    forall x | 0 <= x < |g| ensures t.onStack[x] <==> x in t.stack {
      if x in t.stack {
        var i :| 0 <= i < m && s.stack[i] == x;
      } else if s.onStack[x] {
        var i :| 0 <= i < |s.stack| && s.stack[i] == x;
        if i < m { assert false; }
      }
    }
  }

  lemma PopFrames(g: Graph, s: State, t: State)
    requires PoppedTo(g, s, t) && Frames(g, s)
    ensures Frames(g, t)
  {
    forall i ensures Linked(g, t, i) { assert Linked(g, s, i); }
  }

  lemma PopCounted(g: Graph, s: State, t: State)
    requires PoppedTo(g, s, t) && Frames(g, s) && Counted(g, s)
    ensures Counted(g, t)
  {
    var v := Top(s);
    forall u: nat | OnCall(s, u) && u != v ensures OnCall(t, u) {
      var i :| 0 <= i < |s.call| && s.call[i].node == u;
      assert t.call[i].node == u;
    }
  }

  lemma PopScanned(g: Graph, s: State, t: State)
    requires PoppedTo(g, s, t) && Counted(g, s) && Scanned(g, s)
    ensures Scanned(g, t)
  {
  }

  /** Every other frame was visited before the finished one. */
  lemma OnlyTopFrame(g: Graph, s: State, i: nat)
    requires CanReturn(g, s) && Frames(g, s) && i < |s.call| && s.index[Top(s)] <= s.index[s.call[i].node]
    ensures i == |s.call| - 1
  {
  }

  /** The owner of everything about to be popped is the top frame, so no edge leads from it
      to what stays on the stack. */
  lemma PopClosedAt(g: Graph, s: State, t: State, u: nat, j: nat)
    requires PoppedTo(g, s, t) && Stacked(g, s) && Frames(g, s) && Counted(g, s) && Scanned(g, s) && LowBounds(g, s)
    requires s.low[Top(s)] == s.index[Top(s)]
    requires u < |g| && s.onStack[u] && !t.onStack[u] && j < |g[u]|
    ensures Popped(t, g[u][j])
  {
    hide Edges, Linked;
    var v, k := Top(s), |s.call| - 1;
    assert Owns(s, k, u);
    assert s.work[u] >= |g[u]| by {
      if OnCall(s, u) {
        var i :| 0 <= i < |s.call| && s.call[i].node == u;
        OnlyTopFrame(g, s, i);
      }
    }
    assert Visited(s, g[u][j]);
    if s.onStack[g[u][j]] {
      assert s.low[s.call[k].node] <= s.index[g[u][j]];
    }
  }

  lemma PopClosed(g: Graph, s: State, t: State)
    requires PoppedTo(g, s, t) && Stacked(g, s) && Frames(g, s) && Counted(g, s) && Scanned(g, s) && LowBounds(g, s)
    requires PoppedClosed(g, s)
    requires s.low[Top(s)] == s.index[Top(s)]
    ensures PoppedClosed(g, t)
  {
    hide Stacked, Frames, Counted, Scanned, LowBounds;
    forall u: nat, j: nat | u < |g| && Popped(t, u) && j < |g[u]| ensures Popped(t, g[u][j]) {
      if s.onStack[u] { PopClosedAt(g, s, t, u, j); }
      else { assert Popped(s, u) && Popped(s, g[u][j]); }
    }
  }

  ghost function PoppedSet(g: Graph, s: State): set<nat> {
    set v: nat | v < |g| && Popped(s, v)
  }

  lemma PoppedSetClosed(g: Graph, s: State)
    requires Sized(g, s) && PoppedClosed(g, s)
    ensures Closed(Edges(g), PoppedSet(g, s))
  {
  }

  lemma FrameReachesTop(g: Graph, s: State, i: int)
    requires CanReturn(g, s) && Frames(g, s) && FramesReachDown(g, s) && 0 <= i < |s.call|
    requires Visited(s, s.call[i].node)
    ensures Reach(Edges(g), s.call[i].node, Top(s))
  {
    hide Reach, Edges, IsGraph, Linked;
    assert i < |s.call| - 1 ==> s.index[s.call[i].node] < s.index[s.call[|s.call| - 1].node];
  }

  /** What is popped reaches the finished node and back. */
  lemma PopMutual(g: Graph, s: State, x: nat)
    requires CanReturn(g, s) && Frames(g, s) && FramesReachDown(g, s) && StackReachesUp(g, s)
    requires x < |g| && s.onStack[x] && s.index[Top(s)] <= s.index[x]
    ensures Mutual(Edges(g), Top(s), x)
  {
    hide Reach, Edges, IsGraph, Frames;
    var v, k := Top(s), |s.call| - 1;
    assert Reach(Edges(g), s.call[k].node, x);
    hide FramesReachDown;
    var i :| ReachesFrame(g, s, x, i);
    FrameReachesTop(g, s, i);
    ReachTrans(Edges(g), x, s.call[i].node, v);
  }

  lemma PopIsComponent(g: Graph, s: State, t: State, c: seq<nat>)
    requires PoppedTo(g, s, t) && Stacked(g, s) && Frames(g, s) && FramesReachDown(g, s) && StackReachesUp(g, s)
    requires PoppedClosed(g, s) && PoppedClosed(g, t)
    requires forall i, j :: 0 <= i < j < |c| ==> c[i] != c[j]
    requires forall x: nat :: x in c <==> x < |g| && s.onStack[x] && !t.onStack[x]
    ensures IsComponent(Edges(g), c)
  {
    var v, E := Top(s), Edges(g);
    assert s.onStack[v] && v in c by { assert s.call[|s.call| - 1].node == v; }
    forall x, y | x in c ensures y in c <==> Mutual(E, x, y) {
      PopMember(g, s, t, x, y);
    }
  }

  lemma PopMember(g: Graph, s: State, t: State, x: nat, y: nat)
    requires PoppedTo(g, s, t) && Stacked(g, s) && Frames(g, s) && FramesReachDown(g, s) && StackReachesUp(g, s)
    requires PoppedClosed(g, s) && PoppedClosed(g, t)
    requires x < |g| && s.onStack[x] && !t.onStack[x]
    ensures (y < |g| && s.onStack[y] && !t.onStack[y]) <==> Mutual(Edges(g), x, y)
  {
    hide Reach, Mutual, Edges, IsGraph, Frames, FramesReachDown, StackReachesUp, PoppedClosed;
    var v, E := Top(s), Edges(g);
    PopMutual(g, s, x);
    MutualBack(E, v, x);
    if y < |g| && s.onStack[y] && !t.onStack[y] {
      PopMutual(g, s, y);
      MutualTrans(E, x, v, y);
    }
    if Mutual(E, x, y) { MutualPopped(g, s, t, x, y); }
  }

  lemma MutualBack(E: set<(nat, nat)>, x: nat, y: nat)
    requires Mutual(E, x, y)
    ensures Mutual(E, y, x)
  {
  }

  /** Whatever is mutually reachable with a popped node is popped with it. */
  lemma MutualPopped(g: Graph, s: State, t: State, x: nat, y: nat)
    requires PoppedTo(g, s, t) && PoppedClosed(g, s) && PoppedClosed(g, t) && Stacked(g, s)
    requires x < |g| && s.onStack[x] && !t.onStack[x] && Mutual(Edges(g), x, y)
    ensures y < |g| && s.onStack[y] && !t.onStack[y]
  {
    hide Reach, Edges, IsGraph, PoppedClosed;
    var E := Edges(g);
    PoppedSetClosed(g, t);
    ReachClosed(E, PoppedSet(g, t), x, y);
    PoppedSetClosed(g, s);
    if !s.onStack[y] { ReachClosed(E, PoppedSet(g, s), y, x); }
  }

  lemma PopComps(g: Graph, s: State, t: State, c: seq<nat>)
    requires PoppedTo(g, s, t) && Stacked(g, s) && CompsRight(g, s) && t.comps == s.comps + [c]
    requires IsComponent(Edges(g), c)
    requires forall x: nat :: x in c <==> x < |g| && s.onStack[x] && !t.onStack[x]
    ensures CompsRight(g, t)
  {
    hide IsComponent, Edges, IsGraph;
    assert forall x: nat :: x < |g| ==> (Popped(t, x) <==> Popped(s, x) || x in c);
    forall x: nat | x < |g| && Popped(t, x) ensures InComps(t, x) {
      if x in c { assert x in t.comps[|s.comps|]; }
      else {
        assert InComps(s, x);
        var a :| 0 <= a < |s.comps| && x in s.comps[a];
        assert x in t.comps[a];
      }
    }
    forall d | d in t.comps ensures IsComponent(Edges(g), d) {
      if d != c { assert d in s.comps; }
    }
    forall a, x | 0 <= a < |t.comps| && x in t.comps[a] ensures Popped(t, x) {
      if a < |s.comps| { assert x in s.comps[a] && Popped(s, x); } else { assert x in c; }
    }
    forall a, b, x | 0 <= a < b < |t.comps| && x in t.comps[a] ensures x !in t.comps[b] {
      assert x in s.comps[a];
      assert Popped(s, x);
      if b < |s.comps| { assert t.comps[b] == s.comps[b]; } else { assert t.comps[b] == c; }
    }
  }

  lemma PopReachDown(g: Graph, s: State, t: State)
    requires PoppedTo(g, s, t) && FramesReachDown(g, s)
    ensures FramesReachDown(g, t)
  {
    hide Reach;
  }

  lemma PopReachUp(g: Graph, s: State, t: State)
    requires PoppedTo(g, s, t) && StackReachesUp(g, s)
    ensures StackReachesUp(g, t)
  {
    hide Reach;
    forall x: nat | x < |g| && t.onStack[x] ensures exists i :: ReachesFrame(g, t, x, i) {
      var i :| ReachesFrame(g, s, x, i);
      assert ReachesFrame(g, t, x, i);
    }
  }

  lemma PopLowReached(g: Graph, s: State, t: State)
    requires PoppedTo(g, s, t) && Stacked(g, s) && Frames(g, s) && LowReached(g, s)
    ensures LowReached(g, t)
  {
    hide Reach, Linked;
    forall i | 0 <= i < |t.call| && Visited(t, t.call[i].node) ensures FrameLow(g, t, i) {
      assert FrameLow(g, s, i);
      var u := s.call[i].node;
      assert s.index[u] < s.index[s.call[|s.call| - 1].node];
      var x :| LowWitness(g, s, u, x);
      assert LowWitness(g, t, u, x);
    }
  }

  lemma PopLow(g: Graph, s: State, t: State)
    requires PoppedTo(g, s, t) && LowBounds(g, s)
    ensures LowBounds(g, t)
  {
    var k := |s.call| - 1;
    forall i, x: nat, j | x < |g| && t.onStack[x] && Owns(t, i, x) && 0 <= j < |g[x]| && j < t.work[x]
      && t.onStack[g[x][j]]
      ensures t.low[t.call[i].node] <= t.index[g[x][j]]
    {
      assert i + 1 == k ==> s.call[i + 1].node == Top(s);
      assert Owns(s, i, x);
      assert x != Top(s);
    }
  }

  /** What is popped is the part of the stack from the finished node up. */
  lemma PopList(g: Graph, s: State, m: nat)
    requires CanPop(g, s, m) && Stacked(g, s) && Frames(g, s) && PoppedTo(g, s, Pop(g, s, m))
    ensures var c := Reverse(s.stack[m..]);
      && (forall i, j :: 0 <= i < j < |c| ==> c[i] != c[j])
      && (forall x: nat :: x in c <==> x < |g| && s.onStack[x] && !Pop(g, s, m).onStack[x])
  {
    hide PoppedTo;
    ReverseMembers(s.stack[m..]);
    PoppedMembers(g, s, m);
    StackTailDistinct(g, s, m);
  }

  lemma ReverseMembers(p: seq<nat>)
    ensures forall x: nat :: x in Reverse(p) <==> x in p
    ensures (forall i, j :: 0 <= i < j < |p| ==> p[i] != p[j]) ==>
      forall i, j :: 0 <= i < j < |p| ==> Reverse(p)[i] != Reverse(p)[j]
  {
    var c := Reverse(p);
    forall x: nat | x in p ensures x in c {
      var i :| 0 <= i < |p| && p[i] == x;
      assert c[|p| - 1 - i] == x;
    }
  }

  lemma StackTailDistinct(g: Graph, s: State, m: nat)
    requires Sized(g, s) && Stacked(g, s) && m <= |s.stack|
    ensures var p := s.stack[m..]; forall i, j :: 0 <= i < j < |p| ==> p[i] != p[j]
  {
    var p := s.stack[m..];
    assert forall i :: 0 <= i < |p| ==> p[i] == s.stack[m + i];
  }

  lemma PoppedMembers(g: Graph, s: State, m: nat)
    requires CanPop(g, s, m) && Stacked(g, s) && Frames(g, s) && PoppedTo(g, s, Pop(g, s, m))
    ensures forall x: nat :: x in s.stack[m..] <==> x < |g| && s.onStack[x] && !Pop(g, s, m).onStack[x]
  {
    var p := s.stack[m..];
    assert forall i :: 0 <= i < |p| ==> p[i] == s.stack[m + i];
    forall x: nat ensures x in p <==> x < |g| && s.onStack[x] && !Pop(g, s, m).onStack[x] {
      if x < |g| { PopCut(g, s, m, x); }
    }
  }

  lemma PopKeeps(g: Graph, s: State, m: nat)
    requires CanPop(g, s, m) && Inv(g, s) && s.low[Top(s)] == s.index[Top(s)]
    ensures Inv(g, Pop(g, s, m))
  {
    hide Pop, Stacked, Frames, Counted, Scanned, PoppedClosed, FramesReachDown, StackReachesUp, LowReached, LowBounds,
      CompsRight;
    var t := Pop(g, s, m);
    PopIsPoppedTo(g, s, m);
    PopFields(g, s, m);
    PopStacked(g, s, t, m);
    PopFrames(g, s, t);
    PopCounted(g, s, t);
    PopScanned(g, s, t);
    PopClosed(g, s, t);
    var c := Reverse(s.stack[m..]);
    PopList(g, s, m);
    PopIsComponent(g, s, t, c);
    PopComps(g, s, t, c);
    PopReachDown(g, s, t);
    PopReachUp(g, s, t);
    PopLowReached(g, s, t);
    PopLow(g, s, t);
  }
}
